/** Alignment of power-of-two chunks of the slab allocator (os/slab.c). The heap begins at any page of the
    address space; addresses are absolute here. */
module SlabAlignment {
  import PageAllocator
  import opened Slab

  /** The address of a live chunk when the heap begins at page `heap`. */
  function Address(s: State, heap: nat, b: nat, c: nat): nat
    requires b in s.zones && s.zones[b].bytes >= 8
  {
    heap * PAGE + Start(s, Chunk(b, c))
  }

  // ---- powers of two ----

  /** Of two powers of two the smaller divides the larger. */
  lemma {:induction false} PowersDivide(n: nat, m: nat)
    requires PowerOfTwo(n) && PowerOfTwo(m) && n <= m
    ensures MultipleOf(m, n)
    decreases m
  {
    if n == m {
      assert m == 1 * n;
    } else {
      assert 2 * (m / 2) == m;
      HalfAtLeast(n, m);
      PowersDivide(n, m / 2);
      var k: nat :| m / 2 == k * n;
      assert m == (2 * k) * n;
    }
  }

  lemma {:induction false} HalfAtLeast(n: nat, m: nat)
    requires PowerOfTwo(n) && PowerOfTwo(m) && n < m
    ensures n <= m / 2
    decreases m
  {
    if n > 1 {
      HalfAtLeast(n / 2, m / 2);
    }
  }

  lemma Powers()
    ensures PowerOfTwo(PAGE) && PowerOfTwo(8192) && PowerOfTwo(16384)
  {
    assert PowerOfTwo(16);
    assert PowerOfTwo(256);
    assert PowerOfTwo(4096);
    assert PowerOfTwo(16384);
  }

  // ---- where a live chunk is aligned ----

  lemma Multiples(x: nat, k: nat, unit: nat)
    requires 0 < unit
    ensures MultipleOf(x + k * unit, unit) <==> MultipleOf(x, unit)
  {
    if MultipleOf(x, unit) {
      var j: nat :| x == j * unit;
      assert x + k * unit == (j + k) * unit;
    }
    if MultipleOf(x + k * unit, unit) {
      var j: nat :| x + k * unit == j * unit;
      if j < k {
        TimesGrows(j + 1, k, unit);
        assert false;
      }
      assert x == (j - k) * unit;
    }
  }

  /** A live chunk of a power-of-two size is aligned to it if and only if its zone is. */
  lemma ChunkAlignedExactly(s: State, heap: nat, b: nat, c: nat)
    requires Inv(s) && LivePtr(s, Chunk(b, c)) && PowerOfTwo(s.zones[b].bytes)
    ensures s.zones[b].bytes >= 8
    ensures MultipleOf(Address(s, heap, b, c), s.zones[b].bytes) <==> MultipleOf((heap + b) * PAGE, s.zones[b].bytes)
  {
    assert ZoneFits(s, s.zones[b]);
    var bytes := s.zones[b].bytes;
    var j: nat :| FirstChunk(bytes) == j * bytes;
    SumIs((heap + b) * PAGE, j, c, bytes);
    Multiples((heap + b) * PAGE, j + c, bytes);
  }

  lemma SumIs(x: nat, j: nat, c: nat, bytes: nat)
    ensures x + j * bytes + c * bytes == x + (j + c) * bytes
  {
  }

  /** So it always is when its size is no larger than a page. */
  lemma ChunkAligned(s: State, heap: nat, b: nat, c: nat)
    requires Inv(s) && LivePtr(s, Chunk(b, c)) && PowerOfTwo(s.zones[b].bytes) && s.zones[b].bytes <= PAGE
    ensures s.zones[b].bytes >= 8 && MultipleOf(Address(s, heap, b, c), s.zones[b].bytes)
  {
    ChunkAlignedExactly(s, heap, b, c);
    PagesAligned(heap + b, s.zones[b].bytes);
  }

  lemma PagesAligned(x: nat, bytes: nat)
    requires 0 < bytes <= PAGE && PowerOfTwo(bytes)
    ensures MultipleOf(x * PAGE, bytes)
  {
    Powers();
    PowersDivide(bytes, PAGE);
    var k: nat :| PAGE == k * bytes;
    TimesAgain(x, k, bytes);
  }

  lemma TimesAgain(x: nat, k: nat, bytes: nat)
    ensures x * (k * bytes) == (x * k) * bytes
  {
  }

  // ---- which sizes are always aligned ----

  ghost predicate AlignedAt(heap: nat, bytes: nat, s: State, b: nat, c: nat)
  {
    LivePtr(s, Chunk(b, c)) && s.zones[b].bytes == bytes && bytes >= 8 ==> MultipleOf(Address(s, heap, b, c), bytes)
  }

  /** Whatever is called on whatever heap beginning at page `heap`, chunks of this size are aligned. */
  ghost predicate AlwaysAligned(heap: nat, bytes: nat)
  {
    forall zoneSize, npages, calls, b, c ::
      0 < npages && Suits(zoneSize, npages) ==> AlignedAt(heap, bytes, Run(Fresh(zoneSize, npages), calls), b, c)
  }

  /** A request that finds no zone of its size opens one at the lowest free pages. */
  lemma OpensAt(s: State, size: nat, p: nat, q: nat)
    requires Inv(s) && 0 < size < ZoneLimit(s.zoneSize) && s.runs == [PageAllocator.Run(p, q)] && ZonePages(s) < q
    requires s.parked == [] && 0 <= ZoneIndex(size).zone < NZONES && s.lists[ZoneIndex(size).zone] == []
    ensures var r := Malloc(s, size);
            r.p == Chunk(p, 0) && LivePtr(r.s, r.p) && r.s.zones[p].bytes == ZoneIndex(size).bytes
  {
    TwoChunksFit(s.zoneSize, size);
    ZoneIndexFits(size);
    var a := PageAllocator.Alloc(s.runs, ZonePages(s));
    assert a.start == PageAllocator.Some(p);
  }

  /** Requests beyond the zones' limit take the lowest free pages. */
  lemma TakesAt(s: State, size: nat, p: nat, q: nat)
    requires Inv(s) && ZoneLimit(s.zoneSize) <= size && size + PAGE < 0x1_0000_0000
    requires s.runs == [PageAllocator.Run(p, q)] && (size + PAGE - 1) / PAGE < q && PAGE <= size
    ensures var n, r := (size + PAGE - 1) / PAGE, Malloc(s, size).s;
            && r.runs == [PageAllocator.Run(p + n, q - n)] && r.parked == s.parked && r.lists == s.lists
            && r.zoneSize == s.zoneSize
  {
    var n := (size + PAGE - 1) / PAGE;
    assert [PageAllocator.Run(p + n, q - n)] + s.runs[1..] == [PageAllocator.Run(p + n, q - n)];
  }

  lemma FreshRuns(zoneSize: nat, npages: nat)
    requires ZoneSize(zoneSize) && TablePages(npages) < npages
    ensures Fresh(zoneSize, npages).runs == [PageAllocator.Run(TablePages(npages), npages - TablePages(npages))]
  {
    var all, m := [PageAllocator.Run(0, npages)], TablePages(npages);
    assert [PageAllocator.Run(m, npages - m)] + all[1..] == [PageAllocator.Run(m, npages - m)];
  }

  /** After one call. */
  lemma RunOne(s: State, e: Call)
    requires Inv(s)
    ensures Run(s, [e]) == Step(s, e)
  {
    assert [e][1..] == [];
    assert Run(Step(s, e), []) == Step(s, e);
  }

  lemma RunTwo(s: State, e: Call, f: Call)
    requires Inv(s)
    ensures Run(s, [e, f]) == Step(Step(s, e), f)
  {
    assert [e, f][1..] == [f];
    RunOne(Step(s, e), f);
  }

  ghost predicate HasChunk(s: State, b: nat, bytes: nat)
  {
    LivePtr(s, Chunk(b, 0)) && s.zones[b].bytes == bytes
  }

  /** A live chunk in the first zone of a heap, reached by one call ... */
  lemma ReachedFirst(zoneSize: nat, npages: nat, size: nat, b: nat, bytes: nat) returns (calls: seq<Call>)
    requires ZoneSize(zoneSize) && 0 < size < ZoneLimit(zoneSize) && TablePages(npages) + zoneSize / PAGE < npages
    requires b == TablePages(npages) && size < 16384 && bytes == ZoneIndex(size).bytes
    ensures HasChunk(Run(Fresh(zoneSize, npages), calls), b, bytes)
  {
    var s, m := Fresh(zoneSize, npages), TablePages(npages);
    FreshRuns(zoneSize, npages);
    TwoChunksFit(zoneSize, size);
    ZoneIndexFits(size);
    RunOne(s, Get(size));
    OpensAt(s, size, m, npages - m);
    calls := [Get(size)];
  }

  /** ... and behind a large block of `n` pages, by two. */
  lemma ReachedBehind(zoneSize: nat, npages: nat, large: nat, n: nat, size: nat, b: nat, bytes: nat)
    returns (calls: seq<Call>)
    requires ZoneSize(zoneSize) && 0 < size < ZoneLimit(zoneSize) && n == (large + PAGE - 1) / PAGE
    requires ZoneLimit(zoneSize) <= large && large + PAGE < 0x1_0000_0000
    requires TablePages(npages) + n + zoneSize / PAGE < npages
    requires b == TablePages(npages) + n && size < 16384 && bytes == ZoneIndex(size).bytes
    ensures HasChunk(Run(Fresh(zoneSize, npages), calls), b, bytes)
  {
    var s, m := Fresh(zoneSize, npages), TablePages(npages);
    AfterLarge(zoneSize, npages, large, n);
    calls := ThenOne(s, Get(large), zoneSize, size, b, npages - m - n, bytes);
  }

  lemma ThenOne(s: State, e: Call, zoneSize: nat, size: nat, p: nat, q: nat, bytes: nat) returns (calls: seq<Call>)
    requires Inv(s) && ZoneSize(zoneSize) && zoneSize / PAGE < q && 0 < size < ZoneLimit(zoneSize)
    requires var r := Step(s, e);
             && r.runs == [PageAllocator.Run(p, q)] && r.parked == [] && r.lists == seq(NZONES, _ => [])
             && r.zoneSize == zoneSize
    requires size < 16384 && bytes == ZoneIndex(size).bytes
    ensures HasChunk(Run(s, calls), p, bytes)
  {
    OpensBehind(Step(s, e), zoneSize, size, p, q);
    RunTwo(s, e, Get(size));
    calls := [e, Get(size)];
  }

  lemma AfterLarge(zoneSize: nat, npages: nat, large: nat, n: nat)
    requires ZoneSize(zoneSize) && n == (large + PAGE - 1) / PAGE
    requires ZoneLimit(zoneSize) <= large && large + PAGE < 0x1_0000_0000 && TablePages(npages) + n < npages
    ensures var r, m := Step(Fresh(zoneSize, npages), Get(large)), TablePages(npages);
            && r.runs == [PageAllocator.Run(m + n, npages - m - n)] && r.parked == []
            && r.lists == seq(NZONES, _ => []) && r.zoneSize == zoneSize
  {
    FreshRuns(zoneSize, npages);
    TakesAt(Fresh(zoneSize, npages), large, TablePages(npages), npages - TablePages(npages));
  }

  lemma OpensBehind(s: State, zoneSize: nat, size: nat, p: nat, q: nat)
    requires Inv(s) && s.zoneSize == zoneSize && s.runs == [PageAllocator.Run(p, q)] && ZonePages(s) < q
    requires 0 < size < ZoneLimit(zoneSize) && s.parked == [] && s.lists == seq(NZONES, _ => [])
    ensures size < 16384 && HasChunk(Step(s, Get(size)), p, ZoneIndex(size).bytes)
  {
    TwoChunksFit(zoneSize, size);
    ZoneIndexFits(size);
    OpensAt(s, size, p, q);
  }

  /** Pages at which a zone for chunks larger than a page is not aligned to them. */
  lemma OddPages(x: nat)
    ensures x % 2 != 0 ==> !MultipleOf(x * PAGE, 8192)
    ensures x % 4 != 0 ==> !MultipleOf(x * PAGE, 16384)
  {
    if MultipleOf(x * PAGE, 8192) {
      var k: nat :| x * PAGE == k * 8192;
      assert x == 2 * k;
    }
    if MultipleOf(x * PAGE, 16384) {
      var k: nat :| x * PAGE == k * 16384;
      assert x == 4 * k;
    }
  }

  /** The first request for 8000 bytes on a heap of a hundred pages: 8192 bytes at offset 12288. */
  lemma FirstChunkUnaligned()
    ensures var r := Malloc(Fresh(32768, 100), 8000);
            && Suits(32768, 100) && r.p == Chunk(1, 0) && LivePtr(r.s, r.p) && r.s.zones[1].bytes == 8192
            && PowerOfTwo(8192) && Address(r.s, 0, 1, 0) == 12288 && !MultipleOf(12288, 8192)
  {
    SmallHeap();
    Powers();
    FreshRuns(32768, 100);
    OpensAt(Fresh(32768, 100), 8000, 1, 99);
    OddPages(3);
  }

  /** The zone stands at an odd page, or at one whose number four does not divide. */
  predicate OffPage(x: nat, bytes: nat)
  {
    (bytes == 8192 && x % 2 != 0) || (bytes == 16384 && x % 4 != 0)
  }

  /** Requested at once. */
  lemma UnalignedFirst(heap: nat, bytes: nat, zoneSize: nat, npages: nat, size: nat, m: nat)
    requires 0 < npages && Suits(zoneSize, npages) && 0 < size < ZoneLimit(zoneSize) && size < 16384
    requires m == TablePages(npages) && m + zoneSize / PAGE < npages && bytes == ZoneIndex(size).bytes
    requires OffPage(heap + m, bytes)
    ensures !AlwaysAligned(heap, bytes)
  {
    var calls := ReachedFirst(zoneSize, npages, size, m, bytes);
    Refutes(heap, bytes, zoneSize, npages, calls, m);
  }

  /** Requested after `n` pages, if the first free page happens to be right. */
  lemma UnalignedBehind(heap: nat, bytes: nat, zoneSize: nat, npages: nat, size: nat, large: nat, n: nat, b: nat)
    requires 0 < npages && Suits(zoneSize, npages) && 0 < size < ZoneLimit(zoneSize) && size < 16384
    requires n == (large + PAGE - 1) / PAGE && ZoneLimit(zoneSize) <= large && large + PAGE < 0x1_0000_0000
    requires b == TablePages(npages) + n && b + zoneSize / PAGE < npages && bytes == ZoneIndex(size).bytes
    requires OffPage(heap + b, bytes)
    ensures !AlwaysAligned(heap, bytes)
  {
    var calls := ReachedBehind(zoneSize, npages, large, n, size, b, bytes);
    Refutes(heap, bytes, zoneSize, npages, calls, b);
  }

  /** On a heap of a hundred pages: 8000 bytes requested at once, or after 10000 bytes, are given 8192 bytes at
      an address that is not a multiple of 8192. */
  lemma EightThousandUnaligned(heap: nat)
    ensures !AlwaysAligned(heap, 8192)
  {
    SmallHeap();
    if OffPage(heap + 1, 8192) {
      UnalignedFirst(heap, 8192, 32768, 100, 8000, 1);
    } else {
      UnalignedBehind(heap, 8192, 32768, 100, 8000, 10000, 3, 4);
    }
  }

  lemma SmallHeap()
    ensures Suits(32768, 100) && TablePages(100) == 1 && ZoneIndex(8000).bytes == 8192 && ZoneLimit(32768) == 8192
  {
  }

  lemma SixteenThousandUnaligned(heap: nat)
    ensures !AlwaysAligned(heap, 16384)
  {
    LargeHeap();
    if OffPage(heap + 20, 16384) {
      UnalignedFirst(heap, 16384, 65536, 20000, 16000, 20);
    } else {
      UnalignedBehind(heap, 16384, 65536, 20000, 16000, 20000, 5, 25);
    }
  }

  lemma LargeHeap()
    ensures Suits(65536, 20000) && TablePages(20000) == 20 && ZoneIndex(16000).bytes == 16384 && ZoneLimit(65536) == 16384
  {
  }

  lemma Refutes(heap: nat, bytes: nat, zoneSize: nat, npages: nat, calls: seq<Call>, b: nat)
    requires 0 < npages && Suits(zoneSize, npages)
    requires OffPage(heap + b, bytes)
    requires HasChunk(Run(Fresh(zoneSize, npages), calls), b, bytes)
    ensures !AlwaysAligned(heap, bytes)
  {
    var s := Run(Fresh(zoneSize, npages), calls);
    OddPages(heap + b);
    Powers();
    ChunkAlignedExactly(s, heap, b, 0);
    assert !AlignedAt(heap, bytes, s, b, 0);
  }

  /** The power-of-two chunk sizes beyond a page. */
  lemma LargePowers(i: nat)
    requires i < NZONES && PowerOfTwo(ChunkSize(i)) && ChunkSize(i) > PAGE
    ensures ChunkSize(i) == 8192 || ChunkSize(i) == 16384
  {
    var n := ChunkSize(i);
    Powers();
    HalfAtLeast(PAGE, n);
    if n > 8192 {
      HalfAtLeast(8192, n);
    }
  }

  /** The chunks of a power-of-two size are aligned to it on every heap after all calls if and only if the size
      is no larger than a page. */
  lemma AlignedExactly(heap: nat, i: nat)
    requires i < NZONES && PowerOfTwo(ChunkSize(i))
    ensures AlwaysAligned(heap, ChunkSize(i)) <==> ChunkSize(i) <= PAGE
  {
    if ChunkSize(i) <= PAGE {
      forall zoneSize, npages, calls, b, c | 0 < npages && Suits(zoneSize, npages)
        ensures AlignedAt(heap, ChunkSize(i), Run(Fresh(zoneSize, npages), calls), b, c)
      {
        AlignedIn(Run(Fresh(zoneSize, npages), calls), heap, ChunkSize(i), b, c);
      }
    } else {
      LargePowers(i);
      EightThousandUnaligned(heap);
      SixteenThousandUnaligned(heap);
    }
  }

  lemma AlignedIn(s: State, heap: nat, bytes: nat, b: nat, c: nat)
    requires Inv(s) && PowerOfTwo(bytes) && bytes <= PAGE
    ensures AlignedAt(heap, bytes, s, b, c)
  {
    if LivePtr(s, Chunk(b, c)) && s.zones[b].bytes == bytes && bytes >= 8 {
      ChunkAligned(s, heap, b, c);
    }
  }
}
