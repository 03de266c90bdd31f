/** Which blocks of the memory heap are in use after each operation, and how much room they give (os/memheap.c). */
module MemHeapSizes {
  import opened Tiling
  import opened WaitList
  import opened MemHeap
  import SmallMem

  const WORD := SmallMem.WORD
  const ALIGN := SmallMem.ALIGN

  /** The size looked for covers the size asked for if and only if rounding up does not wrap at 32 bits; it is then
      at most an alignment longer, or the minimum. When it wraps, it is the minimum. */
  lemma RequestCovers(size: nat)
    requires size < WORD
    ensures size <= Request(size) <==> size + ALIGN <= WORD
    ensures size + ALIGN <= WORD ==> Request(size) == MINI || Request(size) < size + ALIGN
    ensures size + ALIGN > WORD ==> Request(size) == MINI
    ensures size <= MINI ==> Request(size) == MINI
    ensures Request(size) % ALIGN == 0
  {
    var n := SmallMem.Align(size);
    assert size + ALIGN <= WORD <==> size + ALIGN - 1 < WORD;
    assert MINI % ALIGN == 0 && n % ALIGN == 0;
    assert Request(size) == if n < MINI then MINI else n;
  }

  ghost function UsedBlocks(bs: seq<Block>): set<Block>
  {
    set b | b in bs && b.used
  }

  lemma UsedReplaced(bs: seq<Block>, lo: int, hi: int, i: nat, n: nat, mid: seq<Block>)
    requires Chain(bs, lo, hi, LEAST) && i + n <= |bs|
    ensures UsedBlocks(Replace(bs, i, n, mid)) == UsedBlocks(bs) - UsedBlocks(bs[i..i + n]) + UsedBlocks(mid)
  {
    var r, cut := Replace(bs, i, n, mid), bs[i..i + n];
    forall b: Block
      ensures b in r && b.used <==> (b in bs && b.used && !(b in cut && b.used)) || (b in mid && b.used)
    {
      ReplaceIn(bs, i, n, mid, b);
      if b in cut {
        OnlyThere(bs, lo, hi, i, n, b);
      }
    }
  }

  /** No two blocks of a tiling are the same. */
  lemma OnlyThere(bs: seq<Block>, lo: int, hi: int, i: nat, n: nat, b: Block)
    requires Chain(bs, lo, hi, LEAST) && i + n <= |bs| && b in bs[i..i + n]
    ensures b !in bs[..i] && b !in bs[i + n..]
  {
    Bounds(bs, lo, hi, LEAST);
    var k :| i <= k < i + n && bs[k] == b;
  }

  lemma UsedOne(b: Block)
    ensures UsedBlocks([b]) == if b.used then {b} else {}
  {
    assert b in [b];
  }

  lemma UsedTwo(a: Block, b: Block)
    ensures UsedBlocks([a, b]) == UsedBlocks([a]) + UsedBlocks([b])
  {
    assert [a, b] == [a] + [b];
  }

  lemma ReplacedOne(bs: seq<Block>, hi: int, i: nat, mid: seq<Block>)
    requires Chain(bs, 0, hi, LEAST) && i < |bs|
    ensures UsedBlocks(Replace(bs, i, 1, mid)) == UsedBlocks(bs) - (if bs[i].used then {bs[i]} else {}) + UsedBlocks(mid)
  {
    UsedReplaced(bs, 0, hi, i, 1, mid);
    assert bs[i..i + 1] == [bs[i]];
    UsedOne(bs[i]);
  }

  lemma ReplacedTwo(bs: seq<Block>, hi: int, i: nat, mid: seq<Block>)
    requires Chain(bs, 0, hi, LEAST) && i + 1 < |bs|
    ensures UsedBlocks(Replace(bs, i, 2, mid)) ==
            UsedBlocks(bs) - (UsedBlocks([bs[i]]) + UsedBlocks([bs[i + 1]])) + UsedBlocks(mid)
  {
    UsedReplaced(bs, 0, hi, i, 2, mid);
    assert bs[i..i + 2] == [bs[i], bs[i + 1]];
    UsedTwo(bs[i], bs[i + 1]);
  }

  /** An allocation makes one used block more, with room for the request and less than a minimal block beyond. */
  lemma GrantUsed(s: State, i: nat, n: int)
    requires Inv(s) && i < |s.blocks| && !s.blocks[i].used && MINI <= n <= Payload(s.blocks[i])
    ensures var b := s.blocks[i];
            var one := Block(b.start, if Payload(b) >= n + HDR + MINI then b.start + (HDR + n) else b.end, true);
            && UsedBlocks(Grant(s, i, n).blocks) == UsedBlocks(s.blocks) + {one} && one !in UsedBlocks(s.blocks)
            && n <= Payload(one) < n + HDR + MINI
  {
    var b := s.blocks[i];
    if Payload(b) >= n + HDR + MINI {
      var one, rest := Block(b.start, b.start + (HDR + n), true), Block(b.start + (HDR + n), b.end, false);
      ReplacedOne(s.blocks, s.pool - HDR, i, [one, rest]);
      UsedTwo(one, rest);
      UsedOne(one);
      UsedOne(rest);
      StartsOnce(s, i, one);
    } else {
      ReplacedOne(s.blocks, s.pool - HDR, i, [b.(used := true)]);
      UsedOne(b.(used := true));
      StartsOnce(s, i, b.(used := true));
    }
  }

  /** No used block starts where a free one does. */
  lemma StartsOnce(s: State, i: nat, one: Block)
    requires Inv(s) && i < |s.blocks| && !s.blocks[i].used && one.start == s.blocks[i].start
    ensures one !in UsedBlocks(s.blocks)
  {
    forall k | 0 <= k < |s.blocks| && s.blocks[k] == one
      ensures k == i
    {
      FindIs(s.blocks, s.pool - HDR, k);
      FindIs(s.blocks, s.pool - HDR, i);
    }
  }

  /** A release makes one used block fewer. */
  lemma ReclaimUsed(s: State, i: nat)
    requires Inv(s) && i < |s.blocks| && s.blocks[i].used
    ensures UsedBlocks(Reclaim(s, i).blocks) == UsedBlocks(s.blocks) - {s.blocks[i]}
  {
    UnusedUsed(s, i);
    var u := Unused(s, i);
    AbsorbUsed(u, if FreeBefore(s.blocks, i) then i - 1 else i);
  }

  lemma UnusedUsed(s: State, i: nat)
    requires Inv(s) && i < |s.blocks| && s.blocks[i].used
    ensures var u, l := Unused(s, i), if FreeBefore(s.blocks, i) then i - 1 else i;
            && Chain(u.blocks, 0, u.pool - HDR, LEAST) && l < |u.blocks| && !u.blocks[l].used
            && UsedBlocks(u.blocks) == UsedBlocks(s.blocks) - {s.blocks[i]}
  {
    if FreeBefore(s.blocks, i) {
      JoinedFacts(s.blocks, s.pool - HDR, i);
      JoinUsed(s.blocks, s.pool - HDR, i - 1, Block(s.blocks[i - 1].start, s.blocks[i].end, false));
    } else {
      UnusedFacts(s.blocks, s.pool - HDR, i);
      FlipUsed(s.blocks, s.pool - HDR, i, s.blocks[i].(used := false));
    }
  }

  lemma JoinUsed(bs: seq<Block>, hi: int, l: nat, one: Block)
    requires Chain(bs, 0, hi, LEAST) && l + 1 < |bs| && !bs[l].used && !one.used && one.start == bs[l].start
    ensures |Replace(bs, l, 2, [one])| > l && Replace(bs, l, 2, [one])[l] == one
    ensures UsedBlocks(Replace(bs, l, 2, [one])) == UsedBlocks(bs) - (if bs[l + 1].used then {bs[l + 1]} else {})
  {
    ReplacedTwo(bs, hi, l, [one]);
    UsedOne(one);
    UsedOne(bs[l]);
    UsedOne(bs[l + 1]);
  }

  lemma FlipUsed(bs: seq<Block>, hi: int, i: nat, one: Block)
    requires Chain(bs, 0, hi, LEAST) && i < |bs| && bs[i].used && !one.used
    ensures UsedBlocks(Replace(bs, i, 1, [one])) == UsedBlocks(bs) - {bs[i]}
  {
    ReplacedOne(bs, hi, i, [one]);
    UsedOne(one);
  }

  lemma AbsorbUsed(s: State, l: nat)
    requires Chain(s.blocks, 0, s.pool - HDR, LEAST) && l < |s.blocks| && !s.blocks[l].used
    ensures UsedBlocks(Absorb(s, l).blocks) == UsedBlocks(s.blocks)
  {
    if FreeAfter(s.blocks, l) {
      JoinUsed(s.blocks, s.pool - HDR, l, Block(s.blocks[l].start, s.blocks[l + 1].end, false));
    }
  }

  /** Moving the border between a used block and what is free behind it changes that block alone. */
  lemma BorderUsed(s: State, i: nat, cut: int, end: int)
    requires Inv(s) && i + 1 < |s.blocks| && s.blocks[i].used && !s.blocks[i + 1].used
    ensures var b := s.blocks[i];
            UsedBlocks(Replace(s.blocks, i, 2, [Block(b.start, cut, true), Block(cut, end, false)])) ==
            UsedBlocks(s.blocks) - {b} + {Block(b.start, cut, true)}
  {
    var b := s.blocks[i];
    ReplacedTwo(s.blocks, s.pool - HDR, i, [Block(b.start, cut, true), Block(cut, end, false)]);
    UsedTwo(Block(b.start, cut, true), Block(cut, end, false));
    UsedOne(Block(b.start, cut, true));
    UsedOne(Block(cut, end, false));
    UsedOne(b);
    UsedOne(s.blocks[i + 1]);
  }

  /** A block that grows or shrinks in place has exactly the size looked for, and all others stay. */
  lemma GrowUsed(s: State, i: nat, n: int)
    requires Inv(s) && i + 1 < |s.blocks| && s.blocks[i].used && !s.blocks[i + 1].used
    ensures var b := s.blocks[i];
            UsedBlocks(Grow(s, i, n).blocks) == UsedBlocks(s.blocks) - {b} + {Block(b.start, b.start + HDR + n, true)}
  {
    BorderUsed(s, i, s.blocks[i].start + HDR + n, s.blocks[i + 1].end);
  }

  lemma ShrinkUsed(s: State, i: nat, n: int)
    requires Inv(s) && i < |s.blocks| && s.blocks[i].used
    ensures var b := s.blocks[i];
            UsedBlocks(Shrink(s, i, n).blocks) == UsedBlocks(s.blocks) - {b} + {Block(b.start, b.start + HDR + n, true)}
  {
    var b := s.blocks[i];
    var cut := b.start + HDR + n;
    if FreeAfter(s.blocks, i) {
      BorderUsed(s, i, cut, s.blocks[i + 1].end);
    } else {
      ReplacedOne(s.blocks, s.pool - HDR, i, [Block(b.start, cut, true), Block(cut, b.end, false)]);
      UsedTwo(Block(b.start, cut, true), Block(cut, b.end, false));
      UsedOne(Block(b.start, cut, true));
      UsedOne(Block(cut, b.end, false));
    }
  }

  // ---- what a caller gets ----

  /** The caller's pointer is that of a used block that was not there before, with room for at least `least` bytes
      and at most `most`; all other used blocks are as they were. */
  ghost predicate Handed(was: set<Block>, now: set<Block>, p: Ptr, least: int, most: int)
  {
    p.At? && exists one: Block :: NewBlock(was, now, one) && one.start + HDR == p.off && least <= Payload(one) <= most
  }

  ghost predicate NewBlock(was: set<Block>, now: set<Block>, one: Block)
  {
    one.used && one !in was && now == was + {one}
  }

  /** How much room a call for `size` bytes may give: the alignment, or the minimum, and less than a minimal block. */
  function Most(size: int): int { (if size + ALIGN < MINI then MINI else size + ALIGN) + HDR + MINI }

  function Least(size: int): int { if size + ALIGN <= WORD then size else MINI }

  lemma ServedHands(s: State, size: nat, r: State, q: Ptr)
    requires Inv(s) && size < WORD && Served(s, Request(size), r, q)
    ensures if q == Null then r == s else Handed(UsedBlocks(s.blocks), UsedBlocks(r.blocks), q, Least(size), Most(size))
  {
    var k, n := Candidate(s, Request(size)), Request(size);
    if k < |s.free| {
      RequestCovers(size);
      var i := Find(s.blocks, s.free[k], 0);
      GrantUsed(s, i, n);
      var b := s.blocks[i];
      var one := Block(b.start, if Payload(b) >= n + HDR + MINI then b.start + (HDR + n) else b.end, true);
      assert NewBlock(UsedBlocks(s.blocks), UsedBlocks(r.blocks), one);
    }
  }

  lemma ResizedHands(s: State, i: nat, p: Ptr, size: nat, r: State, q: Ptr)
    requires Inv(s) && 0 < size < WORD && Live(s.blocks, p, i) && Resized(s, i, p, Request(size), r, q)
    ensures if q == Null then r == s
            else Handed(UsedBlocks(s.blocks) - {s.blocks[i]}, UsedBlocks(r.blocks), q, Least(size), Most(size))
  {
    var b, n := s.blocks[i], Request(size);
    RequestCovers(size);
    assert b in UsedBlocks(s.blocks);
    if n > Payload(b) && FreeAfter(s.blocks, i) && Payload(s.blocks[i + 1]) + Payload(b) > n + MINI {
      GrowUsed(s, i, n);
      InPlaceHands(s, i, p, b.start + HDR + n, r, size);
    } else if n > Payload(b) {
      MovedHands(s, i, p, size, r, q);
    } else if n + HDR + MINI >= Payload(b) {
      InPlaceHands(s, i, p, b.end, r, size);
    } else {
      ShrinkUsed(s, i, n);
      InPlaceHands(s, i, p, b.start + HDR + n, r, size);
    }
  }

  lemma InPlaceHands(s: State, i: nat, p: Ptr, end: int, r: State, size: nat)
    requires Inv(s) && Live(s.blocks, p, i)
    requires UsedBlocks(r.blocks) == UsedBlocks(s.blocks) - {s.blocks[i]} + {Block(s.blocks[i].start, end, true)}
    requires Least(size) <= end - p.off <= Most(size)
    ensures Handed(UsedBlocks(s.blocks) - {s.blocks[i]}, UsedBlocks(r.blocks), p, Least(size), Most(size))
  {
    var one := Block(p.off - HDR, end, true);
    OnlyOneHere(s, i, one);
    assert NewBlock(UsedBlocks(s.blocks) - {s.blocks[i]}, UsedBlocks(r.blocks), one);
  }

  /** No other used block starts where this one does. */
  lemma OnlyOneHere(s: State, i: nat, one: Block)
    requires Inv(s) && i < |s.blocks| && one.start == s.blocks[i].start
    ensures one !in UsedBlocks(s.blocks) - {s.blocks[i]}
  {
    forall k | 0 <= k < |s.blocks| && s.blocks[k] == one
      ensures k == i
    {
      FindIs(s.blocks, s.pool - HDR, k);
      FindIs(s.blocks, s.pool - HDR, i);
    }
  }

  lemma MovedHands(s: State, i: nat, p: Ptr, size: nat, r: State, q: Ptr)
    requires Inv(s) && 0 < size < WORD && Live(s.blocks, p, i) && Moved(s, p, Request(size), r, q)
    ensures if q == Null then r == s
            else Handed(UsedBlocks(s.blocks) - {s.blocks[i]}, UsedBlocks(r.blocks), q, Least(size), Most(size))
  {
    var m :| Served(s, Request(size), m, q) && if q == Null then r == s else ReleasedIn(m, p, r);
    ServedHands(s, size, m, q);
    if q != Null {
      ServedInv(s, Request(size), m, q);
      ReleasedUsed(s, i, m, p, r);
      var one :| NewBlock(UsedBlocks(s.blocks), UsedBlocks(m.blocks), one) && one.start + HDR == q.off
                 && Least(size) <= Payload(one) <= Most(size);
      NewBlockStays(UsedBlocks(s.blocks), UsedBlocks(m.blocks), UsedBlocks(r.blocks), s.blocks[i], one);
    }
  }

  lemma ReleasedUsed(s: State, i: nat, m: State, p: Ptr, r: State)
    requires Inv(m) && Live(s.blocks, p, i) && ReleasedIn(m, p, r) && UsedBlocks(s.blocks) <= UsedBlocks(m.blocks)
    ensures s.blocks[i] in UsedBlocks(s.blocks) && UsedBlocks(r.blocks) == UsedBlocks(m.blocks) - {s.blocks[i]}
  {
    var k :| Live(m.blocks, p, k) && r == Reclaim(m, k);
    ReclaimUsed(m, k);
    assert s.blocks[i] in UsedBlocks(s.blocks);
    SameBlock(m, k, s.blocks[i]);
  }

  lemma NewBlockStays(was: set<Block>, mid: set<Block>, now: set<Block>, x: Block, one: Block)
    requires NewBlock(was, mid, one) && x in was && now == mid - {x}
    ensures NewBlock(was - {x}, now, one)
  {
  }

  lemma ServedInv(s: State, n: int, m: State, q: Ptr)
    requires Inv(s) && MINI <= n && Served(s, n, m, q)
    ensures Inv(m)
  {
    var k := Candidate(s, n);
    if k < |s.free| {
      FindIs(s.blocks, s.pool - HDR, Find(s.blocks, s.free[k], 0));
      GrantKeepsInv(s, Find(s.blocks, s.free[k], 0), n);
    }
  }

  lemma SameBlock(s: State, k: nat, b: Block)
    requires Inv(s) && k < |s.blocks| && b in UsedBlocks(s.blocks) && b.start == s.blocks[k].start
    ensures s.blocks[k] == b
  {
    OnlyOneHere(s, k, b);
  }
}
