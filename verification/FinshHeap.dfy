/** The heap of the shell (components/finsh/finsh_heap.c): 128 bytes of blocks behind 8-byte headers, one list
    of free and one of allocated blocks, both in address order. Pointers are offsets into the buffer. */
module FinshHeap {
  import opened Links
  import opened Tiling
  import opened WaitList

  const HEAP_MAX := 128
  const VARIABLE_MAX := 8
  const HDR: nat := 8
  const ALIGNMENT := 4
  const WORD := 0x1_0000_0000

  /** A shell variable: whether it has a type, and the pointer it holds. */
  datatype Variable = Variable(typed: bool, ptr: int)

  /** Unsigned 32-bit addition. */
  function Plus(a: nat, b: nat): (r: nat)
    requires a < WORD && b < WORD
    ensures r < WORD
  {
    if a + b < WORD then a + b else a + b - WORD
  }

  function AlignSize(size: nat): (n: nat)
    requires size < WORD
    ensures n < WORD && n % ALIGNMENT == 0
  {
    Plus(size, ALIGNMENT - 1) / ALIGNMENT * ALIGNMENT
  }

  /** The payload covers the request exactly when rounding up does not wrap. */
  lemma RequestCovers(size: nat)
    requires size < WORD
    ensures size <= AlignSize(size) <==> size <= WORD - ALIGNMENT
  {
  }

  /** What the search compares a block's length with is the space needed exactly up to this size; beyond, the
      sum wraps to next to nothing. */
  lemma SpaceNeeded(size: nat)
    requires size < WORD
    ensures Plus(AlignSize(size), HDR) == AlignSize(size) + HDR <==> AlignSize(size) < WORD - HDR
    ensures AlignSize(size) >= WORD - HDR ==> Plus(AlignSize(size), HDR) <= ALIGNMENT
  {
  }

  /** There the header of the rest would stand where the block's own header does, or four bytes into it. */
  lemma SplitsItself(h: nat, size: nat)
    requires h < HEAP_MAX && size < WORD && AlignSize(size) >= WORD - HDR
    ensures Plus(Plus(h, HDR), AlignSize(size)) == h + (AlignSize(size) - (WORD - HDR))
    ensures AlignSize(size) == WORD - HDR || AlignSize(size) == WORD - HDR + ALIGNMENT
  {
  }

  // ---- lists in address order ----

  ghost predicate Ascending(cells: seq<nat>)
  {
    forall i, j :: 0 <= i < j < |cells| ==> cells[i] < cells[j]
  }

  /** What the list begins with. */
  function Head(cells: seq<nat>): int { if cells == [] then NIL else cells[0] }

  function Last(cells: seq<nat>): nat
    requires cells != []
  {
    cells[|cells| - 1]
  }

  /** Links that differ nowhere but in the given places. */
  ghost predicate SameBut(next: seq<int>, next': seq<int>, where: set<int>)
  {
    |next'| == |next| && forall x :: 0 <= x < |next| && x !in where ==> next'[x] == next[x]
  }

  lemma ChainedFrame(next: seq<int>, next': seq<int>, head: int, cells: seq<nat>, where: set<int>)
    requires Chained(next, head, cells) && SameBut(next, next', where) && forall x :: x in cells ==> x !in where
    ensures Chained(next', head, cells)
  {
    forall i | 0 <= i < |cells|
      ensures LinkAt(next', cells, i)
    {
      assert LinkAt(next, cells, i) && cells[i] in cells;
    }
  }

  /** The link behind the front part leads to the back part. */
  lemma ChainedAt(next: seq<int>, head: int, a: seq<nat>, h: nat, b: seq<nat>)
    requires Chained(next, head, a + [h] + b)
    ensures h < |next| && next[h] == Head(b)
  {
    var cells := a + [h] + b;
    assert LinkAt(next, cells, |a|) && cells[|a|] == h;
    assert b != [] ==> cells[|a| + 1] == b[0];
  }

  /** A block that already links to the back part is linked in behind the front part. */
  lemma ChainedBetween(next: seq<int>, head: int, a: seq<nat>, h: nat, b: seq<nat>)
    requires Chained(next, head, a + b) && a != [] && h < |next| && next[h] == Head(b)
    requires Ascending(a + b) && h !in a && h !in b
    ensures Last(a) < |next| && Chained(next[Last(a) := h], head, a + [h] + b)
  {
    var cells, r := a + b, a + [h] + b;
    assert LinkAt(next, cells, |a| - 1);
    var now := next[Last(a) := h];
    forall i | 0 <= i < |r|
      ensures LinkAt(now, r, i)
    {
      if i < |a| {
        assert LinkAt(next, cells, i) && r[i] == cells[i] && cells[i] == a[i];
      } else if i > |a| {
        assert LinkAt(next, cells, i - 1) && r[i] == cells[i - 1] && cells[|a| - 1] < cells[i - 1];
      }
    }
  }

  /** A block is unlinked from behind the front part. */
  lemma ChainedDrop(next: seq<int>, head: int, a: seq<nat>, h: nat, b: seq<nat>)
    requires Chained(next, head, a + [h] + b) && a != [] && Ascending(a + [h] + b)
    ensures h < |next| && Last(a) < |next| && Chained(next[Last(a) := next[h]], head, a + b)
  {
    var cells, r := a + [h] + b, a + b;
    ChainedAt(next, head, a, h, b);
    assert LinkAt(next, cells, |a| - 1);
    var now := next[Last(a) := next[h]];
    forall i | 0 <= i < |r|
      ensures LinkAt(now, r, i)
    {
      if i < |a| {
        assert LinkAt(next, cells, i) && r[i] == cells[i] && cells[i] == a[i];
        assert i < |a| - 1 ==> cells[i] < cells[|a| - 1];
      } else {
        assert LinkAt(next, cells, i + 1) && r[i] == cells[i + 1] && cells[|a| - 1] < cells[i + 1];
      }
    }
  }

  // ---- blocks and their lists ----

  ghost predicate Placed(bs: seq<Block>)
  {
    forall i :: 0 <= i < |bs| ==> 0 <= bs[i].start
  }

  /** Where the used, or the free, blocks start. */
  ghost function Starts(bs: seq<Block>, used: bool): seq<nat>
    requires Placed(bs)
  {
    if bs == [] then []
    else if bs[0].used == used then [bs[0].start as nat] + Starts(bs[1..], used)
    else Starts(bs[1..], used)
  }

  lemma {:induction false} StartsConcat(a: seq<Block>, b: seq<Block>, used: bool)
    requires Placed(a) && Placed(b)
    ensures Placed(a + b) && Starts(a + b, used) == Starts(a, used) + Starts(b, used)
  {
    if a == [] {
      assert a + b == b;
    } else {
      var rest := a[1..];
      StartsConcat(rest, b, used);
      assert (a + b)[1..] == rest + b && (a + b)[0] == a[0];
    }
  }

  lemma StartsOne(b: Block, used: bool)
    requires 0 <= b.start
    ensures Starts([b], used) == if b.used == used then [b.start as nat] else []
  {
    assert [b][1..] == [];
    assert Starts([], used) == [];
  }

  lemma {:induction false} StartsHas(bs: seq<Block>, used: bool)
    requires Placed(bs)
    ensures forall x :: x in Starts(bs, used) ==> exists k :: 0 <= k < |bs| && bs[k].used == used && bs[k].start == x
    ensures forall k :: 0 <= k < |bs| && bs[k].used == used ==> bs[k].start as nat in Starts(bs, used)
  {
    if bs != [] {
      var rest := bs[1..];
      StartsHas(rest, used);
      forall x | x in Starts(bs, used)
        ensures exists k :: 0 <= k < |bs| && bs[k].used == used && bs[k].start == x
      {
        if bs[0].used != used || x != bs[0].start {
          assert x in Starts(rest, used);
          var k :| 0 <= k < |rest| && rest[k].used == used && rest[k].start == x;
          assert bs[k + 1].start == x;
        }
      }
      forall k | 0 <= k < |bs| && bs[k].used == used
        ensures bs[k].start as nat in Starts(bs, used)
      {
        assert 0 < k ==> bs[k] == rest[k - 1];
      }
    }
  }

  /** Where the first of them stands. */
  lemma {:induction false} StartsFirst(bs: seq<Block>, used: bool) returns (k: nat)
    requires Placed(bs)
    ensures k <= |bs| && (forall i :: 0 <= i < k ==> bs[i].used != used)
    ensures k < |bs| ==> bs[k].used == used && Head(Starts(bs, used)) == bs[k].start
    ensures k == |bs| ==> Starts(bs, used) == []
  {
    if bs == [] || bs[0].used == used {
      return 0;
    }
    k := StartsFirst(bs[1..], used);
    k := k + 1;
  }

  lemma AscendingPush(x: nat, cells: seq<nat>)
    requires Ascending(cells) && forall y :: y in cells ==> x < y
    ensures Ascending([x] + cells)
  {
    var r := [x] + cells;
    forall i, j | 0 <= i < j < |r|
      ensures r[i] < r[j]
    {
      assert r[j] == cells[j - 1] && cells[j - 1] in cells;
    }
  }

  lemma {:induction false} StartsAscend(bs: seq<Block>, lo: int, hi: int, used: bool)
    requires Chain(bs, lo, hi, HDR) && Placed(bs)
    ensures Ascending(Starts(bs, used)) && forall x :: x in Starts(bs, used) ==> lo <= x < hi
    decreases |bs|
  {
    if bs != [] {
      var rest := bs[1..];
      ChainTail(bs, lo, hi, HDR);
      Bounds(bs, lo, hi, HDR);
      StartsAscend(rest, bs[0].end, hi, used);
      if bs[0].used == used {
        AscendingPush(bs[0].start as nat, Starts(rest, used));
      }
    }
  }

  /** The blocks tile the heap, no two free ones are neighbours, and the last one is free. */
  ghost predicate Canonical(bs: seq<Block>)
  {
    Chain(bs, 0, HEAP_MAX, HDR) && Coalesced(bs) && bs != [] && !bs[|bs| - 1].used
  }

  lemma CanonicalPlaced(bs: seq<Block>)
    requires Canonical(bs)
    ensures Placed(bs) && forall i :: 0 <= i < |bs| ==> bs[i].end <= HEAP_MAX
    ensures forall used :: Ascending(Starts(bs, used))
  {
    Bounds(bs, 0, HEAP_MAX, HDR);
    StartsAscend(bs, 0, HEAP_MAX, true);
    StartsAscend(bs, 0, HEAP_MAX, false);
  }

  /** The starts in front of, at and behind block `i`. */
  lemma StartsAround(bs: seq<Block>, i: nat, used: bool)
    requires Placed(bs) && i < |bs|
    ensures Placed(bs[..i]) && Placed(bs[i + 1..])
    ensures var a, b := Starts(bs[..i], used), Starts(bs[i + 1..], used);
            Starts(bs, used) == if bs[i].used == used then a + [bs[i].start as nat] + b else a + b
  {
    assert bs == bs[..i] + [bs[i]] + bs[i + 1..];
    StartsConcat(bs[..i] + [bs[i]], bs[i + 1..], used);
    StartsConcat(bs[..i], [bs[i]], used);
    StartsOne(bs[i], used);
    AppendNothing(Starts(bs[..i], used));
  }

  // ---- live blocks ----

  /** The allocated blocks. */
  ghost function Live(bs: seq<Block>): set<Block> { set b | b in bs && b.used }

  /** Payload bytes. */
  function Room(b: Block): int { b.end - b.start - HDR }

  /** Block `i` is the lowest free one with at least `n` bytes. */
  ghost predicate FirstFit(bs: seq<Block>, n: int, i: nat)
  {
    i < |bs| && !bs[i].used && n <= Room(bs[i]) && forall k :: 0 <= k < i && !bs[k].used ==> Room(bs[k]) < n
  }

  ghost predicate NoneFits(bs: seq<Block>, n: int)
  {
    forall k :: 0 <= k < |bs| && !bs[k].used ==> Room(bs[k]) < n
  }

  // ---- release ----

  function Low(bs: seq<Block>, i: nat): (l: nat)
    requires i < |bs|
    ensures l <= i
  {
    if FreeBefore(bs, i) then i - 1 else i
  }

  function High(bs: seq<Block>, i: nat): (h: nat)
    requires i < |bs|
    ensures i < h <= |bs|
  {
    if FreeAfter(bs, i) then i + 2 else i + 1
  }

  function Joined(bs: seq<Block>, i: nat): Block
    requires i < |bs|
  {
    Block(bs[Low(bs, i)].start, bs[High(bs, i) - 1].end, false)
  }

  /** Block `i` becomes free, in one piece with its free neighbours. */
  ghost function Freed(bs: seq<Block>, i: nat): seq<Block>
    requires i < |bs|
  {
    Replace(bs, Low(bs, i), High(bs, i) - Low(bs, i), [Joined(bs, i)])
  }

  lemma ReplaceCanonical(bs: seq<Block>, i: nat, n: nat, mid: seq<Block>)
    requires Canonical(bs) && 0 < n && i + n <= |bs| && mid != []
    requires Chain(mid, bs[i].start, bs[i + n - 1].end, HDR) && Coalesced(mid) && !mid[|mid| - 1].used
    requires mid[0].used || i == 0 || bs[i - 1].used
    requires i + n == |bs| || bs[i + n].used
    ensures Canonical(Replace(bs, i, n, mid))
  {
    ReplaceChain(bs, 0, HEAP_MAX, HDR, i, n, mid);
    EditedCoalesced(bs, i, n, mid);
    ReplaceAt(bs, i, n, mid);
  }

  lemma FreedCanonical(bs: seq<Block>, i: nat)
    requires Canonical(bs) && i < |bs| && bs[i].used
    ensures Canonical(Freed(bs, i))
  {
    var l, h := Low(bs, i), High(bs, i);
    Bounds(bs, 0, HEAP_MAX, HDR);
    assert FreeBefore(bs, i) && 0 < i - 1 ==> Apart(bs, i - 1);
    assert FreeAfter(bs, i) && i + 2 < |bs| ==> Apart(bs, i + 2);
    ReplaceCanonical(bs, l, h - l, [Joined(bs, i)]);
  }

  lemma FreedLive(bs: seq<Block>, i: nat)
    requires Canonical(bs) && i < |bs| && bs[i].used
    ensures Live(Freed(bs, i)) == Live(bs) - {bs[i]}
  {
    var l, h, r := Low(bs, i), High(bs, i), Freed(bs, i);
    Bounds(bs, 0, HEAP_MAX, HDR);
    forall b: Block | b.used
      ensures b in r <==> b in bs && b != bs[i]
    {
      ReplaceIn(bs, l, h - l, [Joined(bs, i)], b);
      CutAround(bs, i, l, h, b);
    }
  }

  lemma CutAround(bs: seq<Block>, i: nat, l: nat, h: nat, b: Block)
    requires Chain(bs, 0, HEAP_MAX, HDR) && l <= i < h <= |bs| && b.used
    requires forall k :: l <= k < h && k != i ==> !bs[k].used
    ensures b in bs[..l] || b in bs[h..] ==> b != bs[i]
    ensures b in bs[l..h] ==> b == bs[i]
  {
    Bounds(bs, 0, HEAP_MAX, HDR);
  }

  lemma ReplaceStarts(bs: seq<Block>, i: nat, n: nat, mid: seq<Block>, used: bool)
    requires Placed(bs) && Placed(mid) && i + n <= |bs|
    ensures Placed(bs[..i]) && Placed(bs[i + n..]) && Placed(Replace(bs, i, n, mid))
    ensures Starts(Replace(bs, i, n, mid), used) == Starts(bs[..i], used) + Starts(mid, used) + Starts(bs[i + n..], used)
  {
    StartsConcat(bs[..i] + mid, bs[i + n..], used);
    StartsConcat(bs[..i], mid, used);
  }

  /** The lists after a release. */
  lemma FreedStarts(bs: seq<Block>, i: nat)
    requires Canonical(bs) && i < |bs| && bs[i].used
    ensures Placed(bs) && Placed(bs[..i]) && Placed(bs[i + 1..]) && Placed(Freed(bs, i))
    ensures Starts(Freed(bs, i), true) == Starts(bs[..i], true) + Starts(bs[i + 1..], true)
    ensures Starts(bs[i + 1..], false) != []
    ensures Starts(Freed(bs, i), false) ==
            JoinedStarts(bs, i, Starts(bs[..i], false), Starts(bs[i + 1..], false), bs[i].start as nat)
  {
    CanonicalPlaced(bs);
    FreedUsed(bs, i);
    FreedUnused(bs, i);
  }

  lemma FreedUsed(bs: seq<Block>, i: nat)
    requires Placed(bs) && i < |bs| && !bs[|bs| - 1].used && bs[i].used
    ensures Placed(bs[..i]) && Placed(bs[i + 1..]) && Placed(Freed(bs, i))
    ensures Starts(Freed(bs, i), true) == Starts(bs[..i], true) + Starts(bs[i + 1..], true)
  {
    var l, h, one := Low(bs, i), High(bs, i), Joined(bs, i);
    ReplaceStarts(bs, l, h - l, [one], true);
    StartsOne(one, true);
    FrontStarts(bs, i);
    BackStarts(bs, i);
    AppendNothing(Starts(bs[..l], true));
  }

  lemma FreedUnused(bs: seq<Block>, i: nat)
    requires Placed(bs) && i < |bs| && !bs[|bs| - 1].used && bs[i].used
    ensures Placed(bs[..i]) && Placed(bs[i + 1..]) && Placed(Freed(bs, i)) && Starts(bs[i + 1..], false) != []
    ensures Starts(Freed(bs, i), false) ==
            JoinedStarts(bs, i, Starts(bs[..i], false), Starts(bs[i + 1..], false), bs[i].start as nat)
  {
    var l, h, one := Low(bs, i), High(bs, i), Joined(bs, i);
    ReplaceStarts(bs, l, h - l, [one], false);
    StartsOne(one, false);
    FrontStarts(bs, i);
    BackStarts(bs, i);
    JoinedIs(bs, i, Starts(bs[..l], false), Starts(bs[h..], false));
  }

  /** Block `i`, between those that start at `a` and at `b`, is listed unless it joins the block before it; a
      block it joins behind it is not. */
  ghost function JoinedStarts(bs: seq<Block>, i: nat, a: seq<nat>, b: seq<nat>, h: nat): seq<nat>
    requires i < |bs| && b != []
  {
    (if FreeBefore(bs, i) then a else a + [h]) + if FreeAfter(bs, i) then b[1..] else b
  }

  lemma JoinedIs(bs: seq<Block>, i: nat, front: seq<nat>, back: seq<nat>)
    requires i < |bs| && Placed(bs)
    requires FreeAfter(bs, i) || back != []
    ensures var a := front + if FreeBefore(bs, i) then [bs[i - 1].start as nat] else [];
            var b := (if FreeAfter(bs, i) then [bs[i + 1].start as nat] else []) + back;
            b != [] && front + [Joined(bs, i).start as nat] + back == JoinedStarts(bs, i, a, b, bs[i].start as nat)
  {
  }

  lemma FrontStarts(bs: seq<Block>, i: nat)
    requires Placed(bs) && i < |bs|
    ensures Placed(bs[..i]) && Placed(bs[..Low(bs, i)])
    ensures Starts(bs[..i], true) == Starts(bs[..Low(bs, i)], true)
    ensures Starts(bs[..i], false) ==
            Starts(bs[..Low(bs, i)], false) + if FreeBefore(bs, i) then [bs[i - 1].start as nat] else []
  {
    if FreeBefore(bs, i) {
      var front, b := bs[..i - 1], bs[i - 1];
      assert bs[..i] == front + [b];
      StartsConcat(front, [b], true);
      StartsConcat(front, [b], false);
      StartsOne(b, true);
      StartsOne(b, false);
    }
  }

  lemma BackStarts(bs: seq<Block>, i: nat)
    requires Placed(bs) && i < |bs| && !bs[|bs| - 1].used && bs[i].used
    ensures Placed(bs[i + 1..]) && Placed(bs[High(bs, i)..])
    ensures Starts(bs[i + 1..], true) == Starts(bs[High(bs, i)..], true)
    ensures Starts(bs[i + 1..], false) ==
            (if FreeAfter(bs, i) then [bs[i + 1].start as nat] else []) + Starts(bs[High(bs, i)..], false)
    ensures Starts(bs[i + 1..], false) != []
  {
    var back := bs[i + 1..];
    StartsHas(back, false);
    assert back[|back| - 1] == bs[|bs| - 1];
    if FreeAfter(bs, i) {
      assert back[1..] == bs[i + 2..];
    }
  }

  // ---- lengths ----

  ghost predicate LengthAt(length: seq<int>, b: Block)
  {
    0 <= b.start < |length| && length[b.start] == Room(b)
  }

  ghost predicate LengthsAre(length: seq<int>, bs: seq<Block>)
  {
    forall i :: 0 <= i < |bs| ==> LengthAt(length, bs[i])
  }

  /** A stretch of blocks gives way to others: only their lengths need writing. */
  lemma LengthsReplaced(length: seq<int>, length': seq<int>, bs: seq<Block>, i: nat, n: nat, mid: seq<Block>)
    requires LengthsAre(length, bs) && i + n <= |bs| && LengthsAre(length', mid) && |length'| == |length|
    requires forall k :: 0 <= k < |bs| && (k < i || i + n <= k) ==> LengthAt(length', bs[k])
    ensures LengthsAre(length', Replace(bs, i, n, mid))
  {
    ReplaceAt(bs, i, n, mid);
    var r := Replace(bs, i, n, mid);
    forall k | 0 <= k < |r|
      ensures LengthAt(length', r[k])
    {
      if k < i {
        assert r[k] == bs[k];
      } else if k < i + |mid| {
        assert r[k] == mid[k - i];
      } else {
        assert r[k] == bs[k - |mid| + n];
      }
    }
  }

  /** The end of the block before touches block `i` exactly when it is the neighbour. */
  lemma LeftNeighbour(bs: seq<Block>, length: seq<int>, i: nat)
    requires Canonical(bs) && LengthsAre(length, bs) && i < |bs| && Placed(bs[..i])
    ensures var a := Starts(bs[..i], false);
            && (a != [] ==> Last(a) < |length|)
            && (FreeBefore(bs, i) <==> a != [] && Last(a) + HDR + length[Last(a)] == bs[i].start)
            && (FreeBefore(bs, i) ==> Last(a) == bs[i - 1].start)
  {
    var front := bs[..i];
    var a := Starts(front, false);
    StartsHas(front, false);
    Bounds(bs, 0, HEAP_MAX, HDR);
    CanonicalPlaced(bs);
    FrontStarts(bs, i);
    assert 0 < i ==> Follows(bs, i);
    if a != [] {
      assert Last(a) in a;
      var k :| 0 <= k < |front| && front[k].used == false && front[k].start == Last(a);
      assert LengthAt(length, bs[k]);
      assert k < i - 1 ==> bs[k].end <= bs[i - 1].start;
    }
  }

  lemma RightNeighbour(bs: seq<Block>, length: seq<int>, i: nat)
    requires Canonical(bs) && LengthsAre(length, bs) && i < |bs| && bs[i].used && Placed(bs[i + 1..])
    ensures var b := Starts(bs[i + 1..], false);
            && b != [] && 0 <= bs[i].start < |length|
            && (FreeAfter(bs, i) <==> bs[i].start + HDR + length[bs[i].start] == b[0])
            && (FreeAfter(bs, i) ==> b[0] == bs[i + 1].start)
  {
    var back := bs[i + 1..];
    BackStarts(bs, i);
    var k := StartsFirst(back, false);
    var m := i + 1 + k;
    assert back[k] == bs[m];
    assert LengthAt(length, bs[i]);
    EndIsStart(bs, 0, HEAP_MAX, HDR, i);
    if 0 < k {
      assert back[0] == bs[i + 1];
      Ordered(bs, 0, HEAP_MAX, HDR, i + 1, m);
    }
  }

  // ---- allocation ----

  lemma CarvedCanonical(bs: seq<Block>, i: nat, n: nat)
    requires Canonical(bs) && i < |bs| && !bs[i].used && n + HDR <= Room(bs[i])
    ensures Canonical(Carve(bs, i, HDR + n))
  {
    var b := bs[i];
    var cut := b.start + (HDR + n);
    assert i + 1 < |bs| ==> Apart(bs, i + 1);
    ReplaceCanonical(bs, i, 1, [Block(b.start, cut, true), Block(cut, b.end, false)]);
  }

  lemma CarvedLive(bs: seq<Block>, i: nat, n: nat)
    requires i < |bs| && !bs[i].used
    ensures Live(Carve(bs, i, HDR + n)) == Live(bs) + {Block(bs[i].start, bs[i].start + (HDR + n), true)}
  {
    var b := bs[i];
    var cut := b.start + (HDR + n);
    var mid := [Block(b.start, cut, true), Block(cut, b.end, false)];
    assert bs[i..i + 1] == [b];
    forall x: Block | x.used
      ensures x in Replace(bs, i, 1, mid) <==> x in bs || x == mid[0]
    {
      ReplaceIn(bs, i, 1, mid, x);
    }
  }

  lemma CarvedStarts(bs: seq<Block>, i: nat, n: nat)
    requires Canonical(bs) && i < |bs| && !bs[i].used && n + HDR <= Room(bs[i])
    ensures Placed(bs) && Placed(bs[..i]) && Placed(bs[i + 1..]) && Placed(Carve(bs, i, HDR + n))
    ensures var r, h := Carve(bs, i, HDR + n), bs[i].start as nat;
            && Starts(r, true) == Starts(bs[..i], true) + [h] + Starts(bs[i + 1..], true)
            && Starts(r, false) == Starts(bs[..i], false) + [h + HDR + n] + Starts(bs[i + 1..], false)
  {
    CanonicalPlaced(bs);
    var b := bs[i];
    var cut := b.start + (HDR + n);
    var used, rest := Block(b.start, cut, true), Block(cut, b.end, false);
    assert [used, rest] == [used] + [rest];
    StartsConcat([used], [rest], true);
    StartsConcat([used], [rest], false);
    StartsOne(used, true);
    StartsOne(used, false);
    StartsOne(rest, true);
    StartsOne(rest, false);
    ReplaceStarts(bs, i, 1, [used, rest], true);
    ReplaceStarts(bs, i, 1, [used, rest], false);
  }

  // ---- the tiling follows from the allocated blocks ----

  lemma LiveTail(bs: seq<Block>, lo: int, hi: int)
    requires Chain(bs, lo, hi, HDR) && bs != []
    ensures Live(bs[1..]) == Live(bs) - {bs[0]}
  {
    Bounds(bs, lo, hi, HDR);
    assert bs == [bs[0]] + bs[1..];
  }

  /** The first free block of a tiling ends no later than that of another with the same allocated blocks. */
  lemma FirstEnds(a: seq<Block>, b: seq<Block>, lo: int, hi: int)
    requires Chain(a, lo, hi, HDR) && Chain(b, lo, hi, HDR) && Coalesced(b)
    requires Live(a) == Live(b) && a != [] && b != [] && !a[0].used && !b[0].used
    ensures a[0].end <= b[0].end
  {
    Bounds(a, lo, hi, HDR);
    if 1 < |b| {
      assert Apart(b, 1) && Follows(b, 1);
      assert b[1] in Live(b);
      var k :| 0 <= k < |a| && a[k] == b[1];
    }
  }

  lemma FirstSame(a: seq<Block>, b: seq<Block>, lo: int, hi: int)
    requires Chain(a, lo, hi, HDR) && Chain(b, lo, hi, HDR) && Coalesced(a) && Coalesced(b)
    requires Live(a) == Live(b) && a != [] && b != []
    ensures a[0] == b[0]
  {
    Bounds(a, lo, hi, HDR);
    Bounds(b, lo, hi, HDR);
    assert (a[0].used ==> a[0] in Live(a)) && (b[0].used ==> b[0] in Live(b));
    if !a[0].used && !b[0].used {
      FirstEnds(a, b, lo, hi);
      FirstEnds(b, a, lo, hi);
    }
  }

  /** There is one coalesced tiling for any allocated blocks. */
  lemma {:induction false} TilingIsUnique(a: seq<Block>, b: seq<Block>, lo: int, hi: int)
    requires Chain(a, lo, hi, HDR) && Chain(b, lo, hi, HDR) && Coalesced(a) && Coalesced(b) && Live(a) == Live(b)
    ensures a == b
    decreases |a|
  {
    Bounds(a, lo, hi, HDR);
    Bounds(b, lo, hi, HDR);
    if a != [] && b != [] {
      FirstSame(a, b, lo, hi);
      ChainTail(a, lo, hi, HDR);
      ChainTail(b, lo, hi, HDR);
      LiveTail(a, lo, hi);
      LiveTail(b, lo, hi);
      CoalescedTail(a);
      CoalescedTail(b);
      TilingIsUnique(a[1..], b[1..], a[0].end, hi);
      assert a == [a[0]] + a[1..] && b == [b[0]] + b[1..];
    }
  }

  lemma CoalescedTail(bs: seq<Block>)
    requires Coalesced(bs) && bs != []
    ensures Coalesced(bs[1..])
  {
    forall k | 0 < k < |bs| - 1
      ensures Apart(bs[1..], k)
    {
      assert Apart(bs, k + 1);
    }
  }

  /** The block that holds an address. */
  lemma {:induction false} Covering(bs: seq<Block>, lo: int, hi: int, x: int) returns (k: nat)
    requires Chain(bs, lo, hi, HDR) && lo <= x < hi
    ensures k < |bs| && bs[k].start <= x < bs[k].end
    decreases |bs|
  {
    if x < bs[0].end {
      return 0;
    }
    ChainTail(bs, lo, hi, HDR);
    k := Covering(bs[1..], bs[0].end, hi, x);
    k := k + 1;
  }

  lemma LiveIsApart(bs: seq<Block>, k: nat, b: Block)
    requires Canonical(bs) && k < |bs| && !bs[k].used && b in Live(bs)
    ensures b.end <= bs[k].start || bs[k].end <= b.start
  {
    Bounds(bs, 0, HEAP_MAX, HDR);
    var m :| 0 <= m < |bs| && bs[m] == b;
  }

  /** With fewer allocated blocks every free block lies in a free block. */
  lemma FreeGrows(bs: seq<Block>, less: seq<Block>, k: nat) returns (j: nat)
    requires Canonical(bs) && Canonical(less) && Live(less) <= Live(bs) && k < |bs| && !bs[k].used
    ensures j < |less| && !less[j].used && Room(bs[k]) <= Room(less[j])
  {
    Bounds(bs, 0, HEAP_MAX, HDR);
    forall b | b in Live(bs)
      ensures b.end <= bs[k].start || bs[k].end <= b.start
    {
      LiveIsApart(bs, k, b);
    }
    j := Covering(less, 0, HEAP_MAX, bs[k].start);
    assert less[j] !in Live(bs);
    if j + 1 < |less| {
      assert Apart(less, j + 1) && Follows(less, j + 1);
      assert less[j + 1] in Live(less);
    }
  }

  /** Collecting never loses room: when nothing fits afterwards, nothing fitted before. */
  lemma CollectingOnlyJoins(bs: seq<Block>, less: seq<Block>, n: int)
    requires Canonical(bs) && Canonical(less) && Live(less) <= Live(bs) && NoneFits(less, n)
    ensures NoneFits(bs, n)
  {
    forall k | 0 <= k < |bs| && !bs[k].used
      ensures Room(bs[k]) < n
    {
      var j := FreeGrows(bs, less, k);
    }
  }

  // ---- the heap in place ----

  /** The two lists around block `h`: in address order, and without a common member. */
  ghost predicate InParts(f1: seq<nat>, f2: seq<nat>, a1: seq<nat>, a2: seq<nat>, h: nat)
  {
    && Ascending(f1 + [h] + f2) && Ascending(a1 + [h] + a2)
    && forall x :: x in a1 + a2 ==> x !in f1 && x !in f2
  }

  lemma ChainParts(bs: seq<Block>, lo: int, hi: int, i: nat)
    requires Chain(bs, lo, hi, HDR) && i < |bs|
    ensures Chain(bs[..i], lo, bs[i].start, HDR) && Chain(bs[i + 1..], bs[i].end, hi, HDR)
  {
    var a, b := bs[..i], bs[i + 1..];
    assert 0 < i ==> Follows(bs, i);
    assert i + 1 < |bs| ==> Follows(bs, i + 1);
    forall k | 0 < k < |a|
      ensures Follows(a, k)
    {
      assert Follows(bs, k);
    }
    forall k | 0 < k < |b|
      ensures Follows(b, k)
    {
      assert Follows(bs, i + 1 + k);
    }
  }

  lemma AscendingJoin(a: seq<nat>, h: nat, b: seq<nat>)
    requires Ascending(a) && Ascending(b) && (forall x :: x in a ==> x < h) && (forall x :: x in b ==> h < x)
    ensures Ascending(a + [h] + b)
  {
    var r := a + [h] + b;
    forall i, j | 0 <= i < j < |r|
      ensures r[i] < r[j]
    {
      assert i < |a| ==> r[i] == a[i] && a[i] in a;
      assert j < |a| ==> r[j] == a[j];
      assert |a| < i ==> r[i] == b[i - |a| - 1];
      assert |a| < j ==> r[j] == b[j - |a| - 1] && b[j - |a| - 1] in b;
    }
  }

  lemma AscendingAround(bs: seq<Block>, i: nat, used: bool)
    requires Canonical(bs) && i < |bs| && Placed(bs[..i]) && Placed(bs[i + 1..]) && 0 <= bs[i].start
    ensures Ascending(Starts(bs[..i], used) + [bs[i].start as nat] + Starts(bs[i + 1..], used))
  {
    ChainParts(bs, 0, HEAP_MAX, i);
    StartsAscend(bs[..i], 0, bs[i].start, used);
    StartsAscend(bs[i + 1..], bs[i].end, HEAP_MAX, used);
    AscendingJoin(Starts(bs[..i], used), bs[i].start as nat, Starts(bs[i + 1..], used));
  }

  lemma NeverBoth(bs: seq<Block>, x: nat)
    requires Canonical(bs) && Placed(bs) && x in Starts(bs, true)
    ensures x !in Starts(bs, false)
  {
    Bounds(bs, 0, HEAP_MAX, HDR);
    StartsHas(bs, true);
    StartsHas(bs, false);
  }

  lemma ListParts(bs: seq<Block>, i: nat)
    requires Canonical(bs) && i < |bs|
    ensures Placed(bs) && Placed(bs[..i]) && Placed(bs[i + 1..])
    ensures InParts(Starts(bs[..i], false), Starts(bs[i + 1..], false), Starts(bs[..i], true), Starts(bs[i + 1..], true),
                    bs[i].start as nat)
  {
    CanonicalPlaced(bs);
    AscendingAround(bs, i, true);
    AscendingAround(bs, i, false);
    StartsAround(bs, i, true);
    StartsAround(bs, i, false);
    var f1, f2, a1, a2 := Starts(bs[..i], false), Starts(bs[i + 1..], false), Starts(bs[..i], true), Starts(bs[i + 1..], true);
    forall x | x in a1 + a2
      ensures x !in f1 && x !in f2
    {
      NeverBoth(bs, x);
    }
  }

  /** The blocks, their lengths and both lists agree. */
  ghost predicate Laid(bs: seq<Block>, length: seq<int>, next: seq<int>, freeList: int, allocateList: int)
  {
    && Canonical(bs) && Placed(bs) && |length| == |next| == HEAP_MAX && LengthsAre(length, bs)
    && Chained(next, freeList, Starts(bs, false)) && Chained(next, allocateList, Starts(bs, true))
  }

  /** Putting a block last, behind the whole list, is right exactly when its own link ends the list: an old link
      left in it would stay. */
  lemma StaleLinkShows(next: seq<int>, head: int, a: seq<nat>, h: nat)
    requires Chained(next, head, a) && a != [] && Last(a) < |next| && h < |next| && Ascending(a + [h])
    ensures Chained(next[Last(a) := h], head, a + [h]) <==> next[h] == NIL
  {
    var r, now := a + [h], next[Last(a) := h];
    assert a + [] == a && r + [] == r && r[|a|] == h;
    PartsAscend(a, h, []);
    assert Last(a) in a;
    if next[h] == NIL {
      ChainedBetween(next, head, a, h, []);
    } else {
      assert Chained(now, head, r) ==> LinkAt(now, r, |a|);
    }
  }

  /** What merging does to lists and lengths is what releasing does to the blocks. */
  lemma FreedLengths(bs: seq<Block>, i: nat, length: seq<int>)
    requires Canonical(bs) && LengthsAre(length, bs) && i < |bs| && bs[i].used
    ensures Placed(bs[..i]) && Placed(bs[i + 1..]) && Placed(Freed(bs, i)) && 0 <= bs[i].start < |length|
    ensures var a, b, h := Starts(bs[..i], false), Starts(bs[i + 1..], false), bs[i].start as nat;
            && MergedCells(length, a, h, b) == Starts(Freed(bs, i), false)
            && (b != [] ==> b[0] < |length|) && LengthsAre(MergedLengths(length, a, h, b), Freed(bs, i))
  {
    var a, b, h := Starts(bs[..i], false), Starts(bs[i + 1..], false), bs[i].start as nat;
    FreedStarts(bs, i);
    LeftNeighbour(bs, length, i);
    RightNeighbour(bs, length, i);
    BehindKnown(bs, length, i);
    MergedIs(bs, i, length, a, b, h);
    OneLength(bs, i, length);
  }

  lemma MergedIs(bs: seq<Block>, i: nat, length: seq<int>, a: seq<nat>, b: seq<nat>, h: nat)
    requires Canonical(bs) && LengthsAre(length, bs) && i < |bs| && h == bs[i].start
    requires h < |length| && b != [] && b[0] < |length|
    requires (FreeBefore(bs, i) <==> TouchesLeft(length, a, h)) && (FreeBefore(bs, i) ==> Last(a) == bs[i - 1].start)
    requires (FreeAfter(bs, i) <==> TouchesRight(length, h, b)) && (FreeAfter(bs, i) ==> b[0] == bs[i + 1].start)
    ensures MergedCells(length, a, h, b) == JoinedStarts(bs, i, a, b, h)
    ensures 0 <= Joined(bs, i).start < |length|
    ensures MergedLengths(length, a, h, b) == length[Joined(bs, i).start := Room(Joined(bs, i))]
  {
    JoinedLength(bs, i, length);
  }

  lemma OneLength(bs: seq<Block>, i: nat, length: seq<int>)
    requires Canonical(bs) && LengthsAre(length, bs) && i < |bs|
    ensures var one := Joined(bs, i);
            0 <= one.start < |length| && LengthsAre(length[one.start := Room(one)], Freed(bs, i))
  {
    JoinedLength(bs, i, length);
    var l, h, one := Low(bs, i), High(bs, i), Joined(bs, i);
    Bounds(bs, 0, HEAP_MAX, HDR);
    var now := length[one.start := Room(one)];
    forall k | 0 <= k < |bs| && (k < l || h <= k)
      ensures LengthAt(now, bs[k])
    {
      assert LengthAt(length, bs[k]);
    }
    LengthsReplaced(length, now, bs, l, h - l, [one]);
  }

  lemma JoinedLength(bs: seq<Block>, i: nat, length: seq<int>)
    requires Canonical(bs) && LengthsAre(length, bs) && i < |bs|
    ensures var l, h := Low(bs, i), High(bs, i);
            && 0 <= bs[l].start < |length| && 0 <= bs[i].start < |length| && 0 <= bs[h - 1].start < |length|
            && Room(Joined(bs, i)) ==
               (if l < i then length[bs[l].start] + HDR else 0) + length[bs[i].start]
               + (if i < h - 1 then HDR + length[bs[h - 1].start] else 0)
  {
    var l, h := Low(bs, i), High(bs, i);
    assert LengthAt(length, bs[l]) && LengthAt(length, bs[i]) && LengthAt(length, bs[h - 1]);
    assert (l < i ==> Follows(bs, i)) && (i < h - 1 ==> Follows(bs, i + 1));
  }

  lemma BehindKnown(bs: seq<Block>, length: seq<int>, i: nat)
    requires Placed(bs) && LengthsAre(length, bs) && i < |bs| && Placed(bs[i + 1..])
    ensures var b := Starts(bs[i + 1..], false); b != [] ==> b[0] < |length|
  {
    var back := bs[i + 1..];
    var k := StartsFirst(back, false);
    if k < |back| {
      assert back[k] == bs[i + 1 + k] && LengthAt(length, bs[i + 1 + k]);
    }
  }

  /** The lists around an allocated block, and what its release makes of them. */
  lemma ReleaseParts(bs: seq<Block>, i: nat, length: seq<int>)
    returns (f1: seq<nat>, f2: seq<nat>, a1: seq<nat>, a2: seq<nat>)
    requires Canonical(bs) && Placed(bs) && LengthsAre(length, bs) && i < |bs| && bs[i].used
    ensures 0 <= bs[i].start < |length| && Canonical(Freed(bs, i)) && Placed(Freed(bs, i))
    ensures var h := bs[i].start as nat;
            && InParts(f1, f2, a1, a2, h) && f2 != [] && f2[0] < |length|
            && Starts(bs, false) == f1 + f2 && Starts(bs, true) == a1 + [h] + a2
            && Starts(Freed(bs, i), false) == MergedCells(length, f1, h, f2) && Starts(Freed(bs, i), true) == a1 + a2
            && LengthsAre(MergedLengths(length, f1, h, f2), Freed(bs, i))
  {
    ListParts(bs, i);
    StartsAround(bs, i, true);
    StartsAround(bs, i, false);
    FreedStarts(bs, i);
    FreedLengths(bs, i, length);
    FreedCanonical(bs, i);
    f1, f2, a1, a2 := Starts(bs[..i], false), Starts(bs[i + 1..], false), Starts(bs[..i], true), Starts(bs[i + 1..], true);
  }

  /** The new block at `behind` stands between `h` and whatever follows it. */
  ghost predicate SplitParts(f1: seq<nat>, f2: seq<nat>, a1: seq<nat>, a2: seq<nat>, h: nat, behind: nat)
  {
    Ascending(f1 + [h] + [behind] + f2) && Ascending(f1 + [behind] + f2) && behind !in a1 + a2
  }

  /** The lists around a free block, and what splitting it and handing out its front makes of them. */
  lemma AllocateParts(bs: seq<Block>, i: nat, n: nat)
    returns (f1: seq<nat>, f2: seq<nat>, a1: seq<nat>, a2: seq<nat>)
    requires Canonical(bs) && Placed(bs) && i < |bs| && !bs[i].used && n + HDR <= Room(bs[i])
    ensures Placed(Carve(bs, i, HDR + n)) && 0 <= bs[i].start
    ensures var h, behind, r := bs[i].start as nat, bs[i].start as nat + HDR + n, Carve(bs, i, HDR + n);
            && InParts(f1, f2, a1, a2, h) && SplitParts(f1, f2, a1, a2, h, behind)
            && Starts(bs, false) == f1 + [h] + f2 && Starts(bs, true) == a1 + a2
            && Starts(r, false) == f1 + [behind] + f2 && Starts(r, true) == a1 + [h] + a2
  {
    ListParts(bs, i);
    CarvedStarts(bs, i, n);
    f1, f2, a1, a2 := Starts(bs[..i], false), Starts(bs[i + 1..], false), Starts(bs[..i], true), Starts(bs[i + 1..], true);
    WholeLists(bs, i, f1, f2, a1, a2);
    SplitBetween(bs, i, f1, f2, a1, a2, bs[i].start as nat, bs[i].start as nat + HDR + n);
  }

  lemma WholeLists(bs: seq<Block>, i: nat, f1: seq<nat>, f2: seq<nat>, a1: seq<nat>, a2: seq<nat>)
    requires Placed(bs) && i < |bs| && !bs[i].used && Placed(bs[..i]) && Placed(bs[i + 1..])
    requires f1 == Starts(bs[..i], false) && f2 == Starts(bs[i + 1..], false)
    requires a1 == Starts(bs[..i], true) && a2 == Starts(bs[i + 1..], true)
    ensures Starts(bs, false) == f1 + [bs[i].start as nat] + f2 && Starts(bs, true) == a1 + a2
  {
    StartsAround(bs, i, true);
    StartsAround(bs, i, false);
  }

  lemma CarvedLengths(bs: seq<Block>, i: nat, n: nat, length: seq<int>)
    requires Canonical(bs) && LengthsAre(length, bs) && |length| == HEAP_MAX
    requires i < |bs| && !bs[i].used && n + HDR <= Room(bs[i])
    ensures var h, behind := bs[i].start, bs[i].start + HDR + n;
            && 0 <= h < behind < HEAP_MAX
            && LengthsAre(length[behind := length[h] - HDR - n][h := n], Carve(bs, i, HDR + n))
  {
    var b, behind := bs[i], bs[i].start + HDR + n;
    Bounds(bs, 0, HEAP_MAX, HDR);
    assert LengthAt(length, b);
    var now := length[behind := length[b.start] - HDR - n][b.start := n];
    var mid := [Block(b.start, b.start + (HDR + n), true), Block(b.start + (HDR + n), b.end, false)];
    forall k | 0 <= k < |bs| && k != i
      ensures LengthAt(now, bs[k])
    {
      assert LengthAt(length, bs[k]);
    }
    LengthsReplaced(length, now, bs, i, 1, mid);
  }

  lemma SplitBetween(bs: seq<Block>, i: nat, f1: seq<nat>, f2: seq<nat>, a1: seq<nat>, a2: seq<nat>, h: nat, behind: nat)
    requires Canonical(bs) && i < |bs| && Placed(bs[..i]) && Placed(bs[i + 1..])
    requires f2 == Starts(bs[i + 1..], false) && a2 == Starts(bs[i + 1..], true)
    requires InParts(f1, f2, a1, a2, h) && h < behind < bs[i].end
    ensures SplitParts(f1, f2, a1, a2, h, behind)
  {
    ChainParts(bs, 0, HEAP_MAX, i);
    StartsAscend(bs[i + 1..], bs[i].end, HEAP_MAX, false);
    StartsAscend(bs[i + 1..], bs[i].end, HEAP_MAX, true);
    PartsAscend(f1, h, f2);
    PartsAscend(a1, h, a2);
    FrontAscends(f1, h, f2);
    AscendingJoin(f1 + [h], behind, f2);
    AscendingJoin(f1, behind, f2);
  }

  lemma FrontAscends(a: seq<nat>, h: nat, b: seq<nat>)
    requires Ascending(a + [h] + b)
    ensures Ascending(a) && Ascending(a + [h])
  {
    var r, f := a + [h] + b, a + [h];
    assert forall i :: 0 <= i < |f| ==> f[i] == r[i];
    assert forall i :: 0 <= i < |a| ==> a[i] == r[i];
  }

  lemma Regroup(a: seq<nat>, h: nat, behind: nat, b: seq<nat>)
    ensures a + [h] + [behind] + b == a + [h] + ([behind] + b)
    ensures a + ([behind] + b) == a + [behind] + b
  {
  }

  lemma SplitApart(f1: seq<nat>, f2: seq<nat>, a1: seq<nat>, a2: seq<nat>, h: nat, behind: nat)
    requires InParts(f1, f2, a1, a2, h) && SplitParts(f1, f2, a1, a2, h, behind) && h != behind
    ensures h !in f1 + [behind] + f2 && forall x :: x in a1 ==> x !in f1 + [behind] + f2
  {
    PartsAscend(f1, h, f2);
    forall x | x in a1
      ensures x !in f1 + [behind] + f2
    {
      assert x in a1 + a2;
    }
  }

  /** A member's link leads to the next block of its kind. */
  lemma FollowingIs(bs: seq<Block>, next: seq<int>, head: int, used: bool, k: nat) returns (m: nat)
    requires Placed(bs) && Chained(next, head, Starts(bs, used)) && k < |bs| && bs[k].used == used
    ensures k < m <= |bs| && (forall j :: k < j < m ==> bs[j].used != used) && (m < |bs| ==> bs[m].used == used)
    ensures bs[k].start < |next| && next[bs[k].start] == if m < |bs| then bs[m].start else NIL
  {
    StartsAround(bs, k, used);
    var back := bs[k + 1..];
    m := StartsFirst(back, used);
    ChainedAt(next, head, Starts(bs[..k], used), bs[k].start as nat, Starts(back, used));
    m := k + 1 + m;
  }

  // ---- collection ----

  predicate PointsTo(v: Variable, data: int) { v.typed && v.ptr == data }

  ghost predicate Rooted(vars: seq<Variable>, data: int)
  {
    exists i :: 0 <= i < |vars| && PointsTo(vars[i], data)
  }

  /** Some variable that counts as a pointer has this value. */
  lemma RootedMeans(vars: seq<Variable>, data: int)
    ensures Rooted(vars, data) <==> exists v :: v in vars && v.typed && v.ptr == data
  {
    if v :| v in vars && v.typed && v.ptr == data {
      var i :| 0 <= i < |vars| && vars[i] == v;
      assert PointsTo(vars[i], data);
    }
    if i :| 0 <= i < |vars| && PointsTo(vars[i], data) {
      assert vars[i] in vars;
    }
  }

  /** The blocks some variable points to. */
  ghost function Kept(live: set<Block>, vars: seq<Variable>): set<Block>
  {
    set b | b in live && Rooted(vars, b.start + HDR)
  }

  /** Before `header` everything is settled: what is left there is pointed to, and nothing pointed to is lost. */
  ghost predicate KeptSoFar(all: set<Block>, bs: seq<Block>, header: int, vars: seq<Variable>)
  {
    && Kept(all, vars) <= Live(bs)
    && forall b :: b in Live(bs) && (header == NIL || b.start < header) ==> Rooted(vars, b.start + HDR)
  }

  lemma NothingBetween(bs: seq<Block>, k: nat, m: nat)
    requires Canonical(bs) && k < m <= |bs| && forall j :: k < j < m ==> !bs[j].used
    ensures forall b :: b in Live(bs) && (m == |bs| || b.start < bs[m].start) ==> b == bs[k] || b.start < bs[k].start
  {
    Bounds(bs, 0, HEAP_MAX, HDR);
    forall b | b in Live(bs) && (m == |bs| || b.start < bs[m].start)
      ensures b == bs[k] || b.start < bs[k].start
    {
      var j :| 0 <= j < |bs| && bs[j] == b;
    }
  }

  lemma NothingBefore(bs: seq<Block>, k: nat, vars: seq<Variable>)
    requires Canonical(bs) && k <= |bs| && forall j :: 0 <= j < k ==> !bs[j].used
    ensures KeptSoFar(Live(bs), bs, if k < |bs| then bs[k].start else NIL, vars)
  {
    Bounds(bs, 0, HEAP_MAX, HDR);
    forall b | b in Live(bs)
      ensures k < |bs| && 0 <= bs[k].start <= b.start
    {
      var j :| 0 <= j < |bs| && bs[j] == b;
    }
  }

  /** Where an allocated block stands, and where the next one does. */
  lemma AtBlock(bs: seq<Block>, next: seq<int>, head: int, b: Block) returns (k: nat, m: nat)
    requires Canonical(bs) && Placed(bs) && Chained(next, head, Starts(bs, true)) && b in Live(bs)
    ensures k < m <= |bs| && bs[k] == b && b.start < |next|
    ensures next[b.start] == (if m < |bs| then bs[m].start else NIL)
    ensures m < |bs| ==> bs[m] in Live(bs) && b.start < bs[m].start
    ensures forall x :: x in Live(bs) && (m == |bs| || x.start < bs[m].start) ==> x == b || x.start < b.start
  {
    k :| 0 <= k < |bs| && bs[k] == b;
    m := FollowingIs(bs, next, head, true, k);
    NothingBetween(bs, k, m);
    Bounds(bs, 0, HEAP_MAX, HDR);
  }

  /** The block at `temp` is settled too. */
  lemma KeptFurther(all: set<Block>, was: seq<Block>, now: seq<Block>, k: nat, m: nat, temp: int, header: int,
                    vars: seq<Variable>)
    requires KeptSoFar(all, was, temp, vars) && k < m <= |was| && was[k].start == temp
    requires header == (if m < |was| then was[m].start else NIL) && (m < |was| ==> 0 <= was[m].start)
    requires forall b :: b in Live(was) && (m == |was| || b.start < was[m].start) ==> b == was[k] || b.start < was[k].start
    requires Live(now) == if Rooted(vars, temp + HDR) then Live(was) else Live(was) - {was[k]}
    ensures KeptSoFar(all, now, header, vars)
  {
  }

  /** Wherever an allocation ends up looking, it finds nothing exactly when no free block between those that
      variables point to is large enough. */
  lemma FailsExactly(bs: seq<Block>, from: seq<Block>, kept: seq<Block>, vars: seq<Variable>, n: nat)
    requires Canonical(bs) && Canonical(from) && Canonical(kept) && Live(kept) == Kept(Live(bs), vars)
    requires if NoneFits(bs, n + HDR + 1) then Live(from) == Kept(Live(bs), vars) else from == bs
    ensures NoneFits(from, n + HDR) <==> NoneFits(kept, n + HDR)
  {
    if NoneFits(bs, n + HDR + 1) {
      TilingIsUnique(from, kept, 0, HEAP_MAX);
    } else if NoneFits(kept, n + HDR) {
      CollectingOnlyJoins(bs, kept, n + HDR);
    }
  }

  /** No two allocated blocks share a byte, and none reaches beyond the buffer. */
  lemma LiveDisjoint(bs: seq<Block>, b: Block, c: Block)
    requires Canonical(bs) && b in Live(bs) && c in Live(bs) && b != c
    ensures 0 <= b.start && b.start + HDR <= b.end < HEAP_MAX && (b.end <= c.start || c.end <= b.start)
  {
    Bounds(bs, 0, HEAP_MAX, HDR);
    var i :| 0 <= i < |bs| && bs[i] == b;
    var j :| 0 <= j < |bs| && bs[j] == c;
    assert i < |bs| - 1;
  }

  class Heap {
    var freeList: int
    var allocateList: int
    var length: seq<int>
    var next: seq<int>
    var bytes: seq<int>
    ghost var blocks: seq<Block>

    ghost predicate Valid()
      reads this
    {
      Laid(blocks, length, next, freeList, allocateList) && |bytes| == HEAP_MAX
    }

    /** One free block. */
    constructor ()
      ensures Valid() && blocks == [Block(0, HEAP_MAX, false)]
    {
      freeList, allocateList := 0, NIL;
      length := seq(HEAP_MAX, _ => HEAP_MAX - HDR);
      next := seq(HEAP_MAX, _ => NIL);
      bytes := seq(HEAP_MAX, _ => 0);
      blocks := [Block(0, HEAP_MAX, false)];
      new;
      StartsOne(blocks[0], true);
      StartsOne(blocks[0], false);
      assert LinkAt(next, [0], 0);
    }

    /** Links block `h` into a list at its address. Behind the last member its own link is left as it is. */
    method InsertBlock(list: int, h: nat, ghost a: seq<nat>, ghost b: seq<nat>) returns (head: int)
      requires Chained(next, list, a + b) && Ascending(a + [h] + b) && h < |next|
      requires b == [] ==> next[h] == NIL
      modifies this`next
      ensures Chained(next, head, a + [h] + b)
      ensures SameBut(old(next), next, if a == [] then {h} else {h, Last(a)})
    {
      HeadSide(next, list, a, h, b);
      PartsAscend(a, h, b);
      if list == NIL {
        AloneChained(next, h);
        return h;
      }
      var node := list;
      if node > h {
        FrontChained(next, list, h, b);
        next := next[h := node];
        return h;
      }
      ghost var i := 0;
      while !(next[node] > h) && next[node] != NIL
        invariant next == old(next) && i < |a| && node == a[i] && 0 <= node < |next|
        decreases |a| - i
      {
        Along(next, list, a, h, b, i);
        node := next[node];
        i := i + 1;
      }
      Along(next, list, a, h, b, i);
      LinkIn(node, h, list, a, b);
      return list;
    }

    /** The last two assignments of an insertion behind `node`. */
    method LinkIn(node: nat, h: nat, ghost list: int, ghost a: seq<nat>, ghost b: seq<nat>)
      requires Chained(next, list, a + b) && Ascending(a + [h] + b) && h < |next|
      requires a != [] && node == Last(a) && node < |next| && next[node] == Head(b)
      requires b == [] ==> next[h] == NIL
      modifies this`next
      ensures Chained(next, list, a + [h] + b) && SameBut(old(next), next, {h, node})
    {
      PartsAscend(a, h, b);
      if next[node] != NIL {
        ChainedElsewhere(next, list, a + b, h, next[node]);
        next := next[h := next[node]];
      }
      ChainedBetween(next, list, a, h, b);
      next := next[node := h];
    }

    /** The walk to the member in front of `h`. */
    method Before(list: int, h: nat, ghost a: seq<nat>, ghost b: seq<nat>) returns (node: int)
      requires Chained(next, list, a + [h] + b) && Ascending(a + [h] + b) && a != []
      ensures node == Last(a) < |next|
    {
      HeadOf(next, list, a, h, b);
      node := list;
      ghost var i := 0;
      while node != NIL && next[node] != h
        invariant i < |a| && node == a[i] && 0 <= node < |next|
        decreases |a| - i
      {
        AlongTo(next, list, a, h, b, i);
        node := next[node];
        i := i + 1;
      }
      AlongTo(next, list, a, h, b, i);
    }

    /** Unlinks block `h`. Unless it is first, its own link stays as it was. */
    method RemoveBlock(list: int, h: nat, ghost a: seq<nat>, ghost b: seq<nat>) returns (head: int)
      requires Chained(next, list, a + [h] + b) && Ascending(a + [h] + b)
      modifies this`next
      ensures Chained(next, head, a + b) && SameBut(old(next), next, if a == [] then {h} else {Last(a)})
      ensures h < |next| && next[h] == if a == [] then NIL else Head(b)
    {
      HeadOf(next, list, a, h, b);
      PartsAscend(a, h, b);
      ChainedAt(next, list, a, h, b);
      var node := list;
      if node == h {
        BehindFront(next, h, b);
        head := next[h];
        next := next[h := NIL];
        return head;
      }
      node := Before(list, h, a, b);
      ChainedDrop(next, list, a, h, b);
      next := next[node := next[h]];
      return list;
    }

    /** Joins block `h` with the members before and behind it that touch it. */
    method MergeBlock(list: int, h: nat, ghost a: seq<nat>, ghost b: seq<nat>)
      requires Chained(next, list, a + [h] + b) && Ascending(a + [h] + b) && |length| == |next|
      modifies this`next, this`length
      ensures h < |old(length)| && (b != [] ==> b[0] < |old(length)|) && length == MergedLengths(old(length), a, h, b)
      ensures Chained(next, list, MergedCells(old(length), a, h, b))
      ensures SameBut(old(next), next, {if TouchesLeft(old(length), a, h) then Last(a) else h})
    {
      HeadOf(next, list, a, h, b);
      ChainedAt(next, list, a, h, b);
      BehindIn(next, list, a, h, b);
      var nextNode, prevNode := next[h], NIL;
      if list != h {
        prevNode := Before(list, h, a, b);
      }
      if prevNode != NIL && prevNode + length[prevNode] + HDR == h {
        if nextNode != NIL && h + length[h] + HDR == nextNode {
          DropBoth(next, list, a, h, b);
          length := length[prevNode := length[prevNode] + length[h] + length[nextNode] + 2 * HDR];
          next := next[prevNode := next[nextNode]];
        } else {
          ChainedDrop(next, list, a, h, b);
          length := length[prevNode := length[prevNode] + length[h] + HDR];
          next := next[prevNode := next[h]];
        }
      } else if nextNode != NIL && h + length[h] + HDR == nextNode {
        DropBehind(next, list, a, h, b);
        length := length[h := length[h] + length[nextNode] + HDR];
        next := next[h := next[nextNode]];
      }
    }

    /** The block behind the payload that ends at `size` gets a header and comes next in the list. */
    method SplitBlock(h: nat, size: nat, ghost a: seq<nat>, ghost b: seq<nat>)
      requires |length| == |next| && h + HDR + size < |next|
      requires Chained(next, freeList, a + [h] + b) && Ascending(a + [h] + [h + HDR + size] + b)
      modifies this`length, this`next
      ensures Chained(next, freeList, a + [h] + [h + HDR + size] + b)
      ensures SameBut(old(next), next, {h, h + HDR + size})
      ensures length == old(length)[h + HDR + size := old(length)[h] - HDR - size][h := size]
    {
      var behind := h + HDR + size;
      ChainedAt(next, freeList, a, h, b);
      PartsAscend(a + [h], behind, b);
      length := length[behind := length[h] - HDR - size];
      length := length[h := size];
      ChainedElsewhere(next, freeList, a + [h] + b, behind, next[h]);
      next := next[behind := next[h]];
      ChainedBetween(next, freeList, a + [h], behind, b);
      next := next[h := behind];
    }

    /** Block `h` leaves the allocated blocks and joins the free ones; the last block is free, so it never becomes
        the last of their list, where its old link would show. */
    method Relist(h: nat, ghost f1: seq<nat>, ghost f2: seq<nat>, ghost a1: seq<nat>, ghost a2: seq<nat>)
      requires InParts(f1, f2, a1, a2, h) && f2 != []
      requires Chained(next, freeList, f1 + f2) && Chained(next, allocateList, a1 + [h] + a2)
      modifies this`next, this`freeList, this`allocateList
      ensures Chained(next, freeList, f1 + [h] + f2) && Chained(next, allocateList, a1 + a2) && |next| == |old(next)|
    {
      PartsAscend(f1, h, f2);
      PartsAscend(a1, h, a2);
      assert (a1 != [] ==> Last(a1) in a1 + a2) && (f1 != [] ==> Last(f1) in f1);
      ghost var was := next;
      allocateList := RemoveBlock(allocateList, h, a1, a2);
      ChainedFrame(was, next, freeList, f1 + f2, if a1 == [] then {h} else {Last(a1)});
      was := next;
      freeList := InsertBlock(freeList, h, f1, f2);
      ChainedFrame(was, next, allocateList, a1 + a2, if f1 == [] then {h} else {h, Last(f1)});
    }

    /** An allocated block is released and joined with its free neighbours. */
    method Free(ptr: int, ghost i: nat)
      requires Valid() && i < |blocks| && blocks[i].used && ptr == blocks[i].start + HDR
      modifies this`freeList, this`allocateList, this`length, this`next, this`blocks
      ensures Valid() && blocks == Freed(old(blocks), i)
    {
      ghost var bs := blocks;
      var h: nat := ptr - HDR;
      ghost var f1, f2, a1, a2 := ReleaseParts(bs, i, length);
      Relist(h, f1, f2, a1, a2);
      JoinBack(h, f1, f2, a1, a2);
      blocks := Freed(bs, i);
    }

    method JoinBack(h: nat, ghost f1: seq<nat>, ghost f2: seq<nat>, ghost a1: seq<nat>, ghost a2: seq<nat>)
      requires InParts(f1, f2, a1, a2, h) && |length| == |next|
      requires Chained(next, freeList, f1 + [h] + f2) && Chained(next, allocateList, a1 + a2)
      modifies this`next, this`length
      ensures h < |old(length)| && (f2 != [] ==> f2[0] < |old(length)|) && length == MergedLengths(old(length), f1, h, f2)
      ensures Chained(next, freeList, MergedCells(old(length), f1, h, f2)) && Chained(next, allocateList, a1 + a2)
      ensures |next| == |old(next)|
    {
      PartsAscend(a1, h, a2);
      assert f1 != [] ==> Last(f1) in f1;
      ghost var was := next;
      ghost var at := if TouchesLeft(length, f1, h) then Last(f1) else h;
      MergeBlock(freeList, h, f1, f2);
      ChainedFrame(was, next, allocateList, a1 + a2, {at});
    }

    /** The first free block whose length is at least `bound`. */
    method Search(bound: int) returns (h: int, ghost k: nat)
      requires Valid()
      ensures h == NIL ==> NoneFits(blocks, bound)
      ensures h != NIL ==> FirstFit(blocks, bound, k) && h == blocks[k].start
    {
      h := freeList;
      k := StartsFirst(blocks, false);
      while h != NIL && length[h] < bound
        invariant k <= |blocks| && h == (if k < |blocks| then blocks[k].start else NIL)
        invariant k < |blocks| ==> !blocks[k].used && 0 <= h < |length| && length[h] == Room(blocks[k])
        invariant forall j :: 0 <= j < k && !blocks[j].used ==> Room(blocks[j]) < bound
        decreases |blocks| - k
      {
        k := FollowingIs(blocks, next, freeList, false, k);
        h := next[h];
        assert k < |blocks| ==> LengthAt(length, blocks[k]);
      }
    }

    /** Free block `h` gives its first `n` bytes away and leaves the free blocks; the rest takes its place. */
    method Detach(h: nat, n: nat, ghost f1: seq<nat>, ghost f2: seq<nat>, ghost a1: seq<nat>, ghost a2: seq<nat>)
      requires InParts(f1, f2, a1, a2, h) && SplitParts(f1, f2, a1, a2, h, h + HDR + n) && h + HDR + n < |next| == |length|
      requires Chained(next, freeList, f1 + [h] + f2) && Chained(next, allocateList, a1 + a2)
      modifies this`next, this`length, this`freeList
      ensures Chained(next, freeList, f1 + [h + HDR + n] + f2) && Chained(next, allocateList, a1 + a2)
      ensures |next| == |old(next)| && next[h] == NIL
      ensures length == old(length)[h + HDR + n := old(length)[h] - HDR - n][h := n]
    {
      ghost var behind, was := h + HDR + n, next;
      PartsAscend(f1, h, f2);
      PartsAscend(a1, h, a2);
      SplitBlock(h, n, f1, f2);
      ChainedFrame(was, next, allocateList, a1 + a2, {h, behind});
      Regroup(f1, h, behind, f2);
      PartsAscend(f1, h, [behind] + f2);
      was := next;
      freeList := RemoveBlock(freeList, h, f1, [behind] + f2);
      assert f1 != [] ==> Last(f1) in f1;
      ChainedFrame(was, next, allocateList, a1 + a2, if f1 == [] then {h} else {Last(f1)});
      ChainedElsewhere(next, freeList, f1 + ([behind] + f2), h, NIL);
      ChainedElsewhere(next, allocateList, a1 + a2, h, NIL);
      next := next[h := NIL];
    }

    /** Block `h` joins the allocated blocks. */
    method Attach(h: nat, ghost cells: seq<nat>, ghost a1: seq<nat>, ghost a2: seq<nat>)
      requires Ascending(a1 + [h] + a2) && h !in cells && (forall x :: x in a1 ==> x !in cells)
      requires Chained(next, freeList, cells) && Chained(next, allocateList, a1 + a2) && h < |next| && next[h] == NIL
      modifies this`next, this`allocateList
      ensures Chained(next, freeList, cells) && Chained(next, allocateList, a1 + [h] + a2) && |next| == |old(next)|
    {
      ghost var was := next;
      allocateList := InsertBlock(allocateList, h, a1, a2);
      assert a1 != [] ==> Last(a1) in a1;
      ChainedFrame(was, next, freeList, cells, if a1 == [] then {h} else {h, Last(a1)});
    }

    /** Splits off the first `n` bytes of a free block and moves them to the allocated blocks. */
    method Assign(h: nat, n: nat, ghost i: nat)
      requires Valid() && i < |blocks| && !blocks[i].used && h == blocks[i].start && n + HDR <= Room(blocks[i])
      modifies this`next, this`length, this`freeList, this`allocateList, this`blocks
      ensures Valid() && blocks == Carve(old(blocks), i, HDR + n)
    {
      ghost var bs := blocks;
      ghost var f1, f2, a1, a2 := AllocateParts(bs, i, n);
      CarvedCanonical(bs, i, n);
      CarvedLengths(bs, i, n, length);
      Detach(h, n, f1, f2, a1, a2);
      SplitApart(f1, f2, a1, a2, h, h + HDR + n);
      Attach(h, f1 + [h + HDR + n] + f2, a1, a2);
      blocks := Carve(bs, i, HDR + n);
    }

    /** Whether some variable points to `data`. */
    method IsRooted(vars: seq<Variable>, data: int) returns (found: bool)
      requires |vars| == VARIABLE_MAX
      ensures found <==> Rooted(vars, data)
    {
      var i := 0;
      while i < VARIABLE_MAX
        invariant i <= VARIABLE_MAX && forall j :: 0 <= j < i ==> !PointsTo(vars[j], data)
      {
        if PointsTo(vars[i], data) {
          return true;
        }
        i := i + 1;
      }
      return false;
    }

    /** The collector releases exactly the allocated blocks that no variable points to. The next header is read
        before a block is released. */
    method Collect(vars: seq<Variable>)
      requires Valid() && |vars| == VARIABLE_MAX
      modifies this`freeList, this`allocateList, this`length, this`next, this`blocks
      ensures Valid() && Live(blocks) == Kept(Live(old(blocks)), vars)
    {
      ghost var all := Live(blocks);
      ghost var k := StartsFirst(blocks, true);
      NothingBefore(blocks, k, vars);
      var header := allocateList;
      ghost var b: Block := blocks[if k < |blocks| then k else 0];
      while header != NIL
        invariant Valid() && Live(blocks) <= all && KeptSoFar(all, blocks, header, vars)
        invariant header != NIL ==> b in Live(blocks) && b.start == header
        decreases if header == NIL then 0 else HEAP_MAX - header
      {
        var temp := header;
        ghost var was := blocks;
        ghost var m: nat;
        k, m := AtBlock(was, next, allocateList, b);
        header := next[temp];
        b := was[if m < |was| then m else k];
        Settle(temp, vars, k);
        KeptFurther(all, was, blocks, k, m, temp, header, vars);
      }
    }

    /** The block is released unless a variable points to it. */
    method Settle(temp: nat, vars: seq<Variable>, ghost k: nat)
      requires Valid() && |vars| == VARIABLE_MAX && k < |blocks| && blocks[k].used && temp == blocks[k].start
      modifies this`freeList, this`allocateList, this`length, this`next, this`blocks
      ensures Valid()
      ensures Live(blocks) == if Rooted(vars, temp + HDR) then Live(old(blocks)) else Live(old(blocks)) - {old(blocks)[k]}
    {
      ghost var was := blocks;
      var rooted := IsRooted(vars, temp + HDR);
      if !rooted {
        Free(temp + HDR, k);
        FreedLive(was, k);
      }
    }

    /** A block for `size` bytes, rounded up, is split off the lowest free block that is large enough: one with
        more room than needed, or failing that, after collecting, one with just enough. The payload is cleared. */
    method Allocate(size: nat, vars: seq<Variable>) returns (p: int, ghost from: seq<Block>, ghost k: nat)
      requires Valid() && |vars| == VARIABLE_MAX && size < WORD && AlignSize(size) < WORD - HDR
      modifies this
      ensures Valid()
      ensures var n := AlignSize(size);
              && Canonical(from)
              && (if NoneFits(old(blocks), n + HDR + 1) then Live(from) == Kept(Live(old(blocks)), vars)
                  else from == old(blocks))
              && (p == NIL <==> NoneFits(from, n + HDR)) && (p == NIL ==> blocks == from)
              && (p != NIL ==>
                    && FirstFit(from, if NoneFits(old(blocks), n + HDR + 1) then n + HDR else n + HDR + 1, k)
                    && p == from[k].start + HDR && blocks == Carve(from, k, HDR + n)
                    && Live(blocks) == Live(from) + {Block(p - HDR, p + n, true)})
              && forall x :: 0 <= x < HEAP_MAX ==> bytes[x] == if p != NIL && p <= x < p + n then 0 else old(bytes)[x]
    {
      var n := AlignSize(size);
      var h: int;
      h, from, k := Find(n, vars);
      if h == NIL {
        return NIL, from, k;
      }
      HandOut(h, n, k);
      return h + HDR, from, k;
    }

    /** The free block at `h` is split and its payload cleared. */
    method HandOut(h: int, n: nat, ghost k: nat)
      requires Valid() && k < |blocks| && !blocks[k].used && h == blocks[k].start && n + HDR <= Room(blocks[k])
      modifies this
      ensures Valid() && 0 <= h && blocks == Carve(old(blocks), k, HDR + n)
      ensures Live(blocks) == Live(old(blocks)) + {Block(h, h + HDR + n, true)}
      ensures forall x :: 0 <= x < HEAP_MAX ==> bytes[x] == if h + HDR <= x < h + HDR + n then 0 else old(bytes)[x]
    {
      Bounds(blocks, 0, HEAP_MAX, HDR);
      CarvedLive(blocks, k, n);
      Assign(h, n, k);
      Clear(h + HDR, n);
    }

    /** The free block for `n` bytes, looked for before and, if there is none, after collecting. */
    method Find(n: nat, vars: seq<Variable>) returns (h: int, ghost from: seq<Block>, ghost k: nat)
      requires Valid() && |vars| == VARIABLE_MAX && n < WORD - HDR
      modifies this`freeList, this`allocateList, this`length, this`next, this`blocks
      ensures Valid() && blocks == from
      ensures if NoneFits(old(blocks), n + HDR + 1) then Live(from) == Kept(Live(old(blocks)), vars) else from == old(blocks)
      ensures h == NIL <==> NoneFits(from, n + HDR)
      ensures h != NIL ==>
                && FirstFit(from, if NoneFits(old(blocks), n + HDR + 1) then n + HDR else n + HDR + 1, k)
                && h == from[k].start
    {
      from := blocks;
      h, k := Search(Plus(n, HDR) + 1);
      if h == NIL {
        Collect(vars);
        from := blocks;
        h, k := Search(Plus(n, HDR));
      }
    }

    method Clear(p: nat, n: nat)
      requires p + n <= |bytes|
      modifies this`bytes
      ensures |bytes| == |old(bytes)|
      ensures forall x :: 0 <= x < |bytes| ==> bytes[x] == if p <= x < p + n then 0 else old(bytes)[x]
    {
      bytes := bytes[..p] + seq(n, _ => 0) + bytes[p + n..];
    }
  }

  /** Where a list that does not hold `h` yet begins. */
  lemma HeadSide(next: seq<int>, list: int, a: seq<nat>, h: nat, b: seq<nat>)
    requires Chained(next, list, a + b) && Ascending(a + [h] + b)
    ensures list == NIL <==> a == [] && b == []
    ensures list > h ==> a == []
    ensures a == [] ==> list == Head(b) && (list == NIL || list > h)
    ensures a != [] ==> list == a[0] < |next|
  {
    PartsAscend(a, h, b);
    var cells := a + b;
    if cells != [] {
      assert LinkAt(next, cells, 0);
      assert cells[0] == if a == [] then b[0] else a[0];
      assert (a != [] ==> a[0] in a) && (b != [] ==> b[0] in b);
    }
  }

  /** Where a list that holds `h` begins. */
  lemma HeadOf(next: seq<int>, list: int, a: seq<nat>, h: nat, b: seq<nat>)
    requires Chained(next, list, a + [h] + b) && Ascending(a + [h] + b)
    ensures list == h <==> a == []
    ensures a != [] ==> list == a[0] < |next|
  {
    PartsAscend(a, h, b);
    var cells := a + [h] + b;
    assert LinkAt(next, cells, 0);
    assert cells[0] == if a == [] then h else a[0];
    assert a != [] ==> a[0] in a;
  }

  lemma AloneChained(next: seq<int>, h: nat)
    requires h < |next| && next[h] == NIL
    ensures Chained(next, h, [] + [h] + [])
  {
    assert [] + [h] + [] == [h];
    assert LinkAt(next, [h], 0);
  }

  lemma FrontChained(next: seq<int>, list: int, h: nat, b: seq<nat>)
    requires Chained(next, list, [] + b) && h < |next| && h !in b
    ensures Chained(next[h := list], h, [] + [h] + b)
  {
    assert [] + b == b && [] + [h] + b == [h] + b;
    ChainedPush(next, list, b, h);
  }

  lemma BehindFront(next: seq<int>, h: nat, b: seq<nat>)
    requires Chained(next, h, [] + [h] + b) && h !in b
    ensures h < |next| && Chained(next[h := NIL], next[h], [] + b)
  {
    assert [] + [h] + b == [h] + b && ([h] + b)[1..] == b && [] + b == b;
    ChainedTail(next, h, [h] + b);
    ChainedElsewhere(next, next[h], b, h, NIL);
  }

  lemma PartsAscend(a: seq<nat>, h: nat, b: seq<nat>)
    requires Ascending(a + [h] + b)
    ensures Ascending(a + b) && h !in a && h !in b
    ensures (forall x :: x in a ==> x < h) && (forall x :: x in b ==> h < x)
    ensures forall x :: x in a ==> x !in b
  {
    var r, ab := a + [h] + b, a + b;
    assert r[|a|] == h;
    assert forall i :: 0 <= i < |a| ==> r[i] == a[i] && ab[i] == a[i];
    assert forall i :: 0 <= i < |b| ==> r[|a| + 1 + i] == b[i] && ab[|a| + i] == b[i];
    forall i, j | 0 <= i < j < |ab|
      ensures ab[i] < ab[j]
    {
      assert ab[i] == r[if i < |a| then i else i + 1] && ab[j] == r[if j < |a| then j else j + 1];
    }
  }

  /** The link of the `i`-th member in front of `h`, when `h` is not linked in. */
  lemma Along(next: seq<int>, head: int, a: seq<nat>, h: nat, b: seq<nat>, i: nat)
    requires Chained(next, head, a + b) && i < |a| && Ascending(a + [h] + b)
    ensures a[i] < |next| && next[a[i]] == if i + 1 < |a| then a[i + 1] else Head(b)
    ensures i + 1 < |a| ==> a[i + 1] < h && a[i + 1] < |next|
    ensures i + 1 == |a| ==> next[a[i]] > h || next[a[i]] == NIL
  {
    var cells := a + b;
    PartsAscend(a, h, b);
    assert LinkAt(next, cells, i) && cells[i] == a[i];
    if i + 1 < |a| {
      assert LinkAt(next, cells, i + 1) && cells[i + 1] == a[i + 1] && a[i + 1] in a;
    } else {
      assert b != [] ==> cells[i + 1] == b[0] && b[0] in b;
    }
  }

  /** The same when it is. */
  lemma AlongTo(next: seq<int>, head: int, a: seq<nat>, h: nat, b: seq<nat>, i: nat)
    requires Chained(next, head, a + [h] + b) && i < |a| && Ascending(a + [h] + b)
    ensures a[i] < |next| && next[a[i]] == if i + 1 < |a| then a[i + 1] else h
    ensures i + 1 < |a| ==> a[i + 1] != h && a[i + 1] < |next|
  {
    var cells := a + [h] + b;
    PartsAscend(a, h, b);
    assert LinkAt(next, cells, i) && cells[i] == a[i];
    assert cells[|a|] == h;
    if i + 1 < |a| {
      assert LinkAt(next, cells, i + 1) && cells[i + 1] == a[i + 1] && a[i + 1] in a;
    }
  }

  // ---- merging in a list ----

  ghost predicate TouchesLeft(length: seq<int>, a: seq<nat>, h: nat)
  {
    a != [] && Last(a) < |length| && Last(a) + HDR + length[Last(a)] == h
  }

  ghost predicate TouchesRight(length: seq<int>, h: nat, b: seq<nat>)
  {
    b != [] && h < |length| && h + HDR + length[h] == b[0]
  }

  ghost function MergedCells(length: seq<int>, a: seq<nat>, h: nat, b: seq<nat>): seq<nat>
  {
    (if TouchesLeft(length, a, h) then a else a + [h]) + if TouchesRight(length, h, b) then b[1..] else b
  }

  ghost function MergedLengths(length: seq<int>, a: seq<nat>, h: nat, b: seq<nat>): seq<int>
    requires h < |length| && (b != [] ==> b[0] < |length|)
  {
    var before := if TouchesLeft(length, a, h) then length[Last(a)] + HDR else 0;
    var behind := if TouchesRight(length, h, b) then HDR + length[b[0]] else 0;
    length[(if TouchesLeft(length, a, h) then Last(a) else h) := before + length[h] + behind]
  }

  lemma BehindIn(next: seq<int>, head: int, a: seq<nat>, h: nat, b: seq<nat>)
    requires Chained(next, head, a + [h] + b)
    ensures b != [] ==> b[0] < |next|
  {
    if b != [] {
      assert a + [h] + b == (a + [h]) + [b[0]] + b[1..];
      ChainedAt(next, head, a + [h], b[0], b[1..]);
    }
  }

  lemma DropBehind(next: seq<int>, head: int, a: seq<nat>, h: nat, b: seq<nat>)
    requires Chained(next, head, a + [h] + b) && Ascending(a + [h] + b) && b != []
    ensures h < |next| && b[0] < |next| && Chained(next[h := next[b[0]]], head, a + [h] + b[1..])
  {
    assert a + [h] + b == (a + [h]) + [b[0]] + b[1..];
    ChainedDrop(next, head, a + [h], b[0], b[1..]);
  }

  lemma DropBoth(next: seq<int>, head: int, a: seq<nat>, h: nat, b: seq<nat>)
    requires Chained(next, head, a + [h] + b) && Ascending(a + [h] + b) && a != [] && b != []
    ensures Last(a) < |next| && b[0] < |next| && Chained(next[Last(a) := next[b[0]]], head, a + b[1..])
  {
    ChainedDrop(next, head, a, h, b);
    BehindIn(next, head, a, h, b);
    PartsAscend(a, h, b);
    var now := next[Last(a) := next[h]];
    assert a + b == a + [b[0]] + b[1..];
    assert Last(a) in a && b[0] in b;
    ChainedDrop(now, head, a, b[0], b[1..]);
    assert now[Last(a) := now[b[0]]] == next[Last(a) := next[b[0]]];
  }
}
