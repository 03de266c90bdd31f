/** How long what the slab allocator hands out is, when it hands out nothing, and when zones give their pages back
    (os/slab.c). */
module SlabSizes {
  import opened PageAllocator
  import opened WaitList
  import opened Slab

  const WORD := 0x1_0000_0000

  // ---- how long ----

  /** Of the chunk sizes that are long enough the zone list for a request has the shortest. */
  lemma ShortestThatFits(size: nat, j: nat)
    requires 0 < size < 16384 && j < NZONES && ChunkSize(j) >= size
    ensures 0 <= ZoneIndex(size).zone < NZONES && ZoneIndex(size).bytes == ChunkSize(ZoneIndex(size).zone)
    ensures size <= ZoneIndex(size).bytes <= ChunkSize(j)
  {
    ZoneIndexFits(size);
    var i := ZoneIndex(size).zone;
    if i > 0 {
      ShorterDoesNotFit(size);
      ChunkSizeGrows(j, i);
      ChunkSizeGrows(i - 1, j);
      ChunkSizeGrows(i, j);
    }
  }

  lemma ShorterDoesNotFit(size: nat)
    requires 0 < size < 16384 && 0 < ZoneIndex(size).zone < NZONES
    ensures ChunkSize(ZoneIndex(size).zone - 1) < size
  {
    if size < 1024 {
      ShorterBelow1024(size);
    } else {
      ShorterAbove1024(size);
    }
  }

  lemma ShorterBelow1024(size: nat)
    requires 0 < size < 1024 && 0 < ZoneIndex(size).zone < NZONES
    ensures ChunkSize(ZoneIndex(size).zone - 1) < size
  {
    if size < 128 {
    } else if size < 256 {
    } else if size < 512 {
    } else {
    }
  }

  lemma ShorterAbove1024(size: nat)
    requires 1024 <= size < 16384 && 0 < ZoneIndex(size).zone < NZONES
    ensures ChunkSize(ZoneIndex(size).zone - 1) < size
  {
    if size < 2048 {
    } else if size < 4096 {
    } else if size < 8192 {
    } else {
    }
  }

  /** The pointer covers a request of `size` bytes: a chunk of the shortest size that does, or whole pages. */
  ghost predicate Covers(s: State, p: Ptr, size: nat)
  {
    match p
    case Null => false
    case Chunk(b, _) =>
      && b in s.zones && size <= s.zones[b].bytes
      && forall j :: 0 <= j < NZONES && ChunkSize(j) >= size ==> s.zones[b].bytes <= ChunkSize(j)
    case Block(b) => b in s.owned && size <= s.owned[b] * PAGE < size + PAGE
  }

  lemma CoversLength(s: State, p: Ptr, size: nat)
    requires Covers(s, p, size)
    ensures Length(s, p) >= size
  {
  }

  lemma ClassCovers(s: State, b: nat, c: nat, size: nat)
    requires b in s.zones && 0 < size < 16384 && s.zones[b].bytes == ZoneIndex(size).bytes
    ensures Covers(s, Chunk(b, c), size)
  {
    ZoneIndexFits(size);
    forall j | 0 <= j < NZONES && ChunkSize(j) >= size
      ensures s.zones[b].bytes <= ChunkSize(j)
    {
      ShortestThatFits(size, j);
    }
  }

  lemma PagesCover(size: nat)
    requires 0 < size < WORD
    ensures var n := (size + PAGE - 1) % WORD / PAGE; n > 0 ==> size <= n * PAGE < size + PAGE
    ensures size + PAGE - 1 >= WORD ==> (size + PAGE - 1) % WORD / PAGE == 0
  {
    if size + PAGE - 1 >= WORD {
      assert (size + PAGE - 1) % WORD == size + PAGE - 1 - WORD;
    }
  }

  /** What an allocation hands out is as long as the request asks, and by less than a size class or a page longer. */
  lemma MallocCovers(s: State, size: nat)
    requires Inv(s) && size < WORD
    ensures var r := Malloc(s, size); r.p != Null ==> Covers(r.s, r.p, size)
  {
    var r := Malloc(s, size);
    if size != 0 && r.p != Null {
      if size >= ZoneLimit(s.zoneSize) {
        PagesCover(size);
        var n := (size + PAGE - 1) % WORD / PAGE;
        PagesTaken(s.runs, s.owned, n);
      } else {
        TwoChunksFit(s.zoneSize, size);
        ZoneIndexFits(size);
        var i := ZoneIndex(size).zone;
        if s.lists[i] != [] {
          assert s.lists[i][0] in s.lists[i] && Available(s.zones, s.lists[i][0], i);
          assert ZoneFits(s, s.zones[s.lists[i][0]]);
        }
        ClassCovers(r.s, r.p.base, r.p.index, size);
      }
    }
  }

  /** No allocation shortens what is live. */
  lemma MallocKeepsLength(s: State, size: nat, q: Ptr)
    requires Inv(s) && size < WORD && LivePtr(s, q)
    ensures LivePtr(Malloc(s, size).s, q)
    ensures q.Block? ==> q.page in s.owned && q.page in Malloc(s, size).s.owned
    ensures Length(Malloc(s, size).s, q) == Length(s, q)
  {
    MallocLive(s, size);
    if q.Block? {
      assert q.page in s.owned.Keys;
    }
    if size != 0 {
      if size >= ZoneLimit(s.zoneSize) {
        LargeKeepsLength(s, (size + PAGE - 1) % WORD / PAGE, q);
      } else {
        TwoChunksFit(s.zoneSize, size);
        ZoneIndexFits(size);
        NewKeepsLength(s, ZoneIndex(size).zone, q);
      }
    }
  }

  lemma LargeKeepsLength(s: State, n: nat, q: Ptr)
    requires Inv(s) && LivePtr(s, q)
    ensures var r := MallocLarge(s, n).s;
            (q.Block? ==> q.page in s.owned && q.page in r.owned) && Length(r, q) == Length(s, q)
  {
    if q.Block? {
      assert q.page in s.owned.Keys;
    }
    if Alloc(s.runs, n).start.Some? {
      PagesTaken(s.runs, s.owned, n);
    }
  }

  lemma NewKeepsLength(s: State, i: nat, q: Ptr)
    requires Inv(s) && i < NZONES && LivePtr(s, q)
    ensures var r := if s.lists[i] != [] then MallocFrom(s, i).s else MallocNew(s, i).s;
            && (q.Block? ==> q.page in s.owned && q.page in r.owned) && (q.Chunk? ==> q.base in r.zones)
            && Length(r, q) == Length(s, q)
  {
    if q.Block? {
      assert q.page in s.owned.Keys && q.page !in s.zones.Keys && q.page !in Elems(s.parked);
    } else {
      assert q.base in s.zones.Keys && q.base !in Elems(s.parked) && q.base in s.owned.Keys;
    }
    if s.lists[i] != [] {
      assert s.lists[i][0] in s.lists[i];
    } else if s.parked != [] {
      assert s.parked[0] in Elems(s.parked);
    } else if Alloc(s.runs, ZonePages(s)).start.Some? {
      PagesTaken(s.runs, s.owned, ZonePages(s));
    }
  }

  /** Nor does a release, except of what is released. */
  lemma ReleaseKeepsLength(s: State, p: Ptr, q: Ptr)
    requires Inv(s) && LivePtr(s, p) && LivePtr(s, q) && p != q
    ensures LivePtr(Release(s, p), q)
    ensures q.Block? ==> q.page in s.owned && q.page in Release(s, p).owned
    ensures Length(Release(s, p), q) == Length(s, q)
    ensures q.Chunk? ==> q.base in Release(s, p).zones && Release(s, p).zones[q.base].bytes == s.zones[q.base].bytes
  {
    ReleaseLive(s, p);
    if q.Block? {
      assert q.page in s.owned.Keys && q.page in s.large && q.page !in s.zones.Keys;
    }
  }

  /** A resize that succeeds covers the new size, as an allocation does. */
  lemma ReallocCovers(s: State, p: Ptr, size: nat)
    requires Inv(s) && 0 < size < WORD && (p == Null || LivePtr(s, p))
    ensures var r := Realloc(s, p, size); r.p != Null ==> Covers(r.s, r.p, size)
  {
    if p == Null {
      MallocCovers(s, size);
    } else {
      var bytes := if p.Block? || size >= 16384 then size else ZoneIndex(size).bytes;
      if p.Chunk? && s.zones[p.base].bytes == bytes {
        if size < 16384 {
          ClassCovers(s, p.base, p.index, size);
        }
      } else {
        ResizedBelowWord(size);
        MovedCovers(s, p, bytes);
        if bytes != size && Moved(s, p, bytes).p != Null {
          ClassToo(Moved(s, p, bytes).s, Moved(s, p, bytes).p, size);
        }
      }
    }
  }

  lemma MovedCovers(s: State, p: Ptr, bytes: nat)
    requires Inv(s) && bytes < WORD && LivePtr(s, p)
    ensures var r := Moved(s, p, bytes); r.p != Null ==> Covers(r.s, r.p, bytes)
  {
    MallocInv(s, bytes);
    MallocLive(s, bytes);
    MallocCovers(s, bytes);
    var r := Malloc(s, bytes);
    if r.p != Null {
      ReleaseKeepsLength(r.s, p, r.p);
    }
  }

  /** What covers the size a request is rounded up to covers the request. */
  lemma ClassToo(s: State, p: Ptr, size: nat)
    requires 0 < size < 16384 && Covers(s, p, ZoneIndex(size).bytes)
    ensures Covers(s, p, size)
  {
    ZoneIndexFits(size);
    if p.Chunk? {
      forall j | 0 <= j < NZONES && ChunkSize(j) >= size
        ensures s.zones[p.base].bytes <= ChunkSize(j)
      {
        ShortestThatFits(size, j);
      }
    } else {
      SamePages(size, s.owned[p.page]);
    }
  }

  lemma SamePages(size: nat, n: nat)
    requires 0 < size < 16384 && ZoneIndex(size).bytes <= n * PAGE < ZoneIndex(size).bytes + PAGE
    ensures n * PAGE < size + PAGE
  {
    ZoneIndexFits(size);
    var bytes := ZoneIndex(size).bytes;
    if n * PAGE >= size + PAGE {
      assert size <= (n - 1) * PAGE < bytes;
      PageIsClass(n - 1, size);
    }
  }

  /** A number of pages is a size class, or longer than any. */
  lemma PageIsClass(k: nat, size: nat)
    requires 0 < size < 16384 && size <= k * PAGE
    ensures ZoneIndex(size).bytes <= k * PAGE
  {
    ZoneIndexFits(size);
    if k <= 4 {
      assert ChunkSize(if k == 1 then 55 else if k == 2 then 63 else if k == 3 then 67 else 71) == k * PAGE;
      ShortestThatFits(size, if k == 1 then 55 else if k == 2 then 63 else if k == 3 then 67 else 71);
    }
  }

  /** Chunks begin at the first address behind the zone's header that is a multiple of the chunk size if that is a
      power of two, and of eight otherwise. */
  lemma FirstChunkExactly(bytes: nat, x: nat)
    requires 8 <= bytes
    ensures var unit := if PowerOfTwo(bytes) then bytes else 8;
            && MultipleOf(FirstChunk(bytes), unit) && FirstChunk(bytes) >= 36
            && (MultipleOf(x, unit) && x >= 36 ==> FirstChunk(bytes) <= x)
  {
    var unit := if PowerOfTwo(bytes) then bytes else 8;
    var k := (36 + unit - 1) / unit;
    assert FirstChunk(bytes) == k * unit && (k - 1) * unit == k * unit - unit;
    if MultipleOf(x, unit) && x >= 36 {
      var j: nat :| x == j * unit;
      if j < k {
        TimesGrows(j, k - 1, unit);
      } else {
        TimesGrows(k, j, unit);
      }
    }
  }

  /** When all chunks of a zone have been handed out once, the one given back last is the next. */
  lemma LastBackFirstOut(z: Zone, c: nat)
    requires ZoneOk(z) && Live(z, c) && z.uindex + 1 == z.nmax
    ensures ZoneOk(GiveChunk(z, c)) && NextChunk(GiveChunk(z, c)) == c && TakeChunk(GiveChunk(z, c)) == z
  {
    GiveChunkFacts(z, c);
    assert ([c] + z.free)[1..] == z.free;
  }

  /** Resizing to nothing is a release. */
  lemma ResizeToNothing(s: State, p: Ptr)
    requires Inv(s) && LivePtr(s, p)
    ensures var r := Realloc(s, p, 0);
            r.p == Null && Inv(r.s) && forall q :: LivePtr(r.s, q) <==> LivePtr(s, q) && q != p
  {
    ReallocInv(s, p, 0);
    ReleaseLive(s, p);
  }

  /** A run is its calls one after the other, each of them made. */
  lemma {:induction false} RunExtends(s: State, calls: seq<Call>, e: Call)
    requires Inv(s)
    ensures var m := Slab.Run(s, calls);
            Slab.Run(s, []) == s && Slab.Run(s, calls + [e]) ==
              match e
              case Get(size) => if size < WORD then Malloc(m, size).s else m
              case Put(p) => if LivePtr(m, p) then Release(m, p) else m
              case Resize(p, size) => if size < WORD && (p == Null || LivePtr(m, p)) then Realloc(m, p, size).s else m
    decreases |calls|
  {
    if calls == [] {
      assert ([] + [e])[1..] == [];
      assert Slab.Run(Step(s, e), []) == Step(s, e);
    } else {
      RunExtends(Step(s, calls[0]), calls[1..], e);
      assert (calls + [e])[1..] == calls[1..] + [e];
    }
  }

  // ---- when there is nothing ----

  /** No `n` consecutive pages are free. */
  ghost predicate NoRoom(s: State, n: nat)
  {
    forall b: nat :: !AllFree(s.runs, b, n)
  }

  /** Every zone of this chunk size is full. */
  ghost predicate NoneOpen(s: State, bytes: nat)
  {
    forall b :: b in s.zones && s.zones[b].bytes == bytes ==> s.zones[b].nfree == 0
  }

  /** An allocation fails exactly for size zero, for sizes that leave no page before they wrap at 32 bits, and when
      there is no room: no run of pages long enough, or, for a chunk, neither a free chunk of its size, nor a zone
      kept for later, nor pages for a new zone. */
  lemma FailsExactly(s: State, size: nat)
    requires Inv(s) && size < WORD
    ensures Malloc(s, size).p == Null <==>
            if size == 0 || size + PAGE - 1 >= WORD then true
            else if size >= ZoneLimit(s.zoneSize) then NoRoom(s, (size + PAGE - 1) / PAGE)
            else NoneOpen(s, ZoneIndex(size).bytes) && s.parked == [] && NoRoom(s, ZonePages(s))
  {
    if 0 < size {
      if size >= ZoneLimit(s.zoneSize) {
        LargeFails(s, size);
      } else {
        TwoChunksFit(s.zoneSize, size);
        ZoneIndexFits(size);
        ListedWhenOpen(s, ZoneIndex(size).zone);
        if s.lists[ZoneIndex(size).zone] == [] {
          NewFails(s, ZoneIndex(size).zone);
        }
      }
    }
  }

  lemma LargeFails(s: State, size: nat)
    requires Inv(s) && ZoneLimit(s.zoneSize) <= size < WORD && 0 < size
    ensures Malloc(s, size).p == Null <==>
            size + PAGE - 1 >= WORD || NoRoom(s, (size + PAGE - 1) / PAGE)
  {
    PagesCover(size);
    AllocFacts(s.runs, (size + PAGE - 1) % WORD / PAGE);
  }

  lemma ListedWhenOpen(s: State, i: nat)
    requires Inv(s) && i < NZONES
    ensures s.lists[i] == [] <==> NoneOpen(s, ChunkSize(i))
  {
    if s.lists[i] != [] {
      var b := s.lists[i][0];
      assert b in s.lists[i] && Available(s.zones, b, i);
      assert ZoneFits(s, s.zones[b]);
    } else {
      forall b | b in s.zones && s.zones[b].bytes == ChunkSize(i)
        ensures s.zones[b].nfree == 0
      {
        assert ZoneFits(s, s.zones[b]);
        ChunkSizeGrows(i, s.zones[b].zone);
        ChunkSizeGrows(s.zones[b].zone, i);
        assert b in s.lists[i] <==> Available(s.zones, b, i);
      }
    }
  }

  lemma NewFails(s: State, i: nat)
    requires Inv(s) && i < NZONES && MaxChunks(s.zoneSize, ChunkSize(i)) >= 2
    ensures MallocNew(s, i).p == Null <==> s.parked == [] && NoRoom(s, ZonePages(s))
  {
    AllocFacts(s.runs, ZonePages(s));
  }

  // ---- when zones go ----

  /** Chunks are handed out of open zones first, then zones kept for later are opened, and only then pages taken. */
  lemma PagesTakenLast(s: State, size: nat)
    requires Inv(s) && 0 < size < ZoneLimit(s.zoneSize) && size < 16384
    requires !NoneOpen(s, ZoneIndex(size).bytes) || s.parked != []
    ensures var r := Malloc(s, size).s;
            && r.runs == s.runs && r.owned == s.owned
            && (!NoneOpen(s, ZoneIndex(size).bytes) ==> r.parked == s.parked && r.zones.Keys == s.zones.Keys)
  {
    TwoChunksFit(s.zoneSize, size);
    ZoneIndexFits(size);
    ListedWhenOpen(s, ZoneIndex(size).zone);
    var i := ZoneIndex(size).zone;
    if s.lists[i] != [] {
      assert s.lists[i][0] in s.lists[i] && s.lists[i][0] in s.zones.Keys;
    }
  }

  /** The chunk is the last live one of its zone, and some other zone of its size has free chunks. */
  ghost predicate Goes(s: State, b: nat, c: nat)
    requires b in s.zones && s.zones[b].zone < |s.lists|
  {
    && (forall d: nat :: LivePtr(s, Chunk(b, d)) ==> d == c)
    && exists o: nat :: o != b && o in s.lists[s.zones[b].zone]
  }

  /** A zone goes with its last live chunk unless it is the only zone of its size with free chunks: then it is kept
      for later if fewer than two are, and its pages are free otherwise. No other zone goes. */
  lemma EmptyZonesGo(s: State, b: nat, c: nat)
    requires Inv(s) && LivePtr(s, Chunk(b, c))
    ensures b in s.zones && s.zones[b].zone < |s.lists|
    ensures var r, few := Release(s, Chunk(b, c)), |s.parked| < RELEASE_THRESH;
            && r.zones.Keys == (if Goes(s, b, c) then s.zones.Keys - {b} else s.zones.Keys)
            && r.parked == (if Goes(s, b, c) && few then [b] + s.parked else s.parked)
            && (forall p :: FreePage(r.runs, p) <==>
                  FreePage(s.runs, p) || (Goes(s, b, c) && !few && b <= p < b + ZonePages(s)))
  {
    GoesWhen(s, b, c);
    if Goes(s, b, c) && |s.parked| >= RELEASE_THRESH {
      assert b in s.zones.Keys;
      FreeFacts(s.runs, b, s.owned[b]);
    }
  }

  lemma GoesWhen(s: State, b: nat, c: nat)
    requires Inv(s) && LivePtr(s, Chunk(b, c))
    ensures b in s.zones && s.zones[b].zone < |s.lists| && b in s.owned
    ensures var r := Returned(s, b, c);
            Goes(s, b, c) <==> r.zones[b].nfree == r.zones[b].nmax && |r.lists[r.zones[b].zone]| > 1
  {
    assert ZoneFits(s, s.zones[b]) && b in s.zones.Keys;
    var r, i := Returned(s, b, c), s.zones[b].zone;
    ReturnedInv(s, b, c);
    GiveChunkFacts(s.zones[b], c);
    WhollyFree(r.zones[b]);
    LiveAfterReturn(s, b, c);
    assert b in r.lists[i] <==> Available(r.zones, b, i);
    MoreThanOne(r.lists[i], b);
    OthersListed(s, b, c, i);
  }

  lemma LiveAfterReturn(s: State, b: nat, c: nat)
    requires Inv(s) && LivePtr(s, Chunk(b, c))
    ensures var r := Returned(s, b, c);
            (forall d: nat :: !Live(r.zones[b], d)) <==> forall d: nat :: LivePtr(s, Chunk(b, d)) ==> d == c
  {
    GiveChunkFacts(s.zones[b], c);
    var r := Returned(s, b, c);
    if forall d: nat :: !Live(r.zones[b], d) {
      forall d: nat | LivePtr(s, Chunk(b, d))
        ensures d == c
      {
        assert !Live(r.zones[b], d);
      }
    } else {
      var d: nat :| Live(r.zones[b], d);
      assert LivePtr(s, Chunk(b, d)) && d != c;
    }
  }

  lemma OthersListed(s: State, b: nat, c: nat, i: nat)
    requires Inv(s) && LivePtr(s, Chunk(b, c)) && i == s.zones[b].zone && i < NZONES
    ensures forall o: nat :: o != b ==> (o in Returned(s, b, c).lists[i] <==> o in s.lists[i])
  {
  }

  /** A list without repetitions that holds something holds more exactly if it is longer than one. */
  lemma MoreThanOne(list: seq<nat>, b: nat)
    requires Distinct(list) && b in list
    ensures |list| > 1 <==> exists o: nat :: o != b && o in list
  {
    if |list| > 1 {
      var o := if list[0] == b then list[1] else list[0];
      assert o != b && o in list;
    }
  }
}
