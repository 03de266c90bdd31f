/** The zones of the slab allocator (os/slab.c): chunks of one size each, kept in zones of whole pages, on top
    of the page allocator. Addresses are offsets from the start of the heap. */
module Slab {
  import opened PageAllocator
  import opened WaitList

  const PAGE := 4096
  const NZONES := 72
  const RELEASE_THRESH := 2
  const ZONE_HEADER := 36

  // ---- sizes and zones ----

  datatype Class = Class(zone: int, bytes: nat)

  /** Which zone list serves a request, and the chunk size it is rounded up to. */
  function ZoneIndex(n: nat): Class
    requires n < 16384
  {
    if n < 128 then Class((n + 7) / 8 - 1, (n + 7) / 8 * 8)
    else if n < 256 then Class((n + 15) / 16 + 7, (n + 15) / 16 * 16)
    else if n < 512 then Class((n + 31) / 32 + 15, (n + 31) / 32 * 32)
    else if n < 1024 then Class((n + 63) / 64 + 23, (n + 63) / 64 * 64)
    else if n < 2048 then Class((n + 127) / 128 + 31, (n + 127) / 128 * 128)
    else if n < 4096 then Class((n + 255) / 256 + 39, (n + 255) / 256 * 256)
    else if n < 8192 then Class((n + 511) / 512 + 47, (n + 511) / 512 * 512)
    else Class((n + 1023) / 1024 + 55, (n + 1023) / 1024 * 1024)
  }

  /** The chunk size a zone list stands for. */
  function ChunkSize(zone: nat): nat
    requires zone < NZONES
  {
    if zone < 16 then 8 * (zone + 1)
    else if zone < 24 then 16 * (zone - 7)
    else if zone < 32 then 32 * (zone - 15)
    else if zone < 40 then 64 * (zone - 23)
    else if zone < 48 then 128 * (zone - 31)
    else if zone < 56 then 256 * (zone - 39)
    else if zone < 64 then 512 * (zone - 47)
    else 1024 * (zone - 55)
  }

  /** Requests are rounded up to the chunk size of their list, by less than an eighth above 128 bytes; equal
      lists mean equal chunk sizes although neighbouring size ranges share a list. */
  lemma ZoneIndexFits(n: nat)
    requires 0 < n < 16384
    ensures var c := ZoneIndex(n);
            && 0 <= c.zone < NZONES && c.bytes == ChunkSize(c.zone)
            && n <= c.bytes && c.bytes % 8 == 0 && 8 <= c.bytes <= 16384 && 8 * (c.bytes - n) < n + 57
  {
    if n < 1024 {
      FitsBelow1024(n);
    } else {
      FitsAbove1024(n);
    }
  }

  lemma FitsBelow1024(n: nat)
    requires 0 < n < 1024
    ensures var c := ZoneIndex(n);
            && 0 <= c.zone < NZONES && c.bytes == ChunkSize(c.zone)
            && n <= c.bytes && c.bytes % 8 == 0 && 8 <= c.bytes <= 1024 && 8 * (c.bytes - n) < n + 57
  {
    if n < 128 {
    } else if n < 256 {
    } else if n < 512 {
    } else {
    }
  }

  lemma FitsAbove1024(n: nat)
    requires 1024 <= n < 16384
    ensures var c := ZoneIndex(n);
            && 0 <= c.zone < NZONES && c.bytes == ChunkSize(c.zone)
            && n <= c.bytes && c.bytes % 8 == 0 && 8 <= c.bytes <= 16384 && 8 * (c.bytes - n) < n
  {
    if n < 2048 {
    } else if n < 4096 {
    } else if n < 8192 {
    } else {
    }
  }

  lemma SameListSameSize(m: nat, n: nat)
    requires 0 < m < 16384 && 0 < n < 16384
    ensures ZoneIndex(m).zone == ZoneIndex(n).zone <==> ZoneIndex(m).bytes == ZoneIndex(n).bytes
  {
    ZoneIndexFits(m);
    ZoneIndexFits(n);
    ChunkSizeGrows(ZoneIndex(m).zone, ZoneIndex(n).zone);
  }

  lemma ChunkSizeGrows(a: nat, b: nat)
    requires a < NZONES && b < NZONES
    ensures a < b <==> ChunkSize(a) < ChunkSize(b)
  {
  }

  function ZoneLimit(zoneSize: nat): nat { if zoneSize / 4 > 16384 then 16384 else zoneSize / 4 }

  predicate ZoneSize(zoneSize: nat) { zoneSize == 32768 || zoneSize == 65536 || zoneSize == 131072 }

  /** The zone size grows with the heap, from 32 to 128 kilobytes. */
  method ChooseZoneSize(heapSize: nat) returns (zoneSize: nat)
    ensures ZoneSize(zoneSize)
    ensures zoneSize == 131072 || 2 * zoneSize >= heapSize / 1024
    ensures zoneSize == 32768 || zoneSize < heapSize / 1024
  {
    zoneSize := 32768;
    while zoneSize < 131072 && 2 * zoneSize < heapSize / 1024
      invariant ZoneSize(zoneSize) && (zoneSize == 32768 || zoneSize < heapSize / 1024)
      decreases 131072 - zoneSize
    {
      zoneSize := 2 * zoneSize;
    }
  }

  /** `n` rounded up to a multiple of `unit`. */
  function Up(n: nat, unit: nat): (r: nat)
    requires 0 < unit
    ensures n <= r < n + unit
  {
    (n + unit - 1) / unit * unit
  }

  ghost predicate MultipleOf(n: nat, unit: nat)
  {
    exists k: nat :: n == k * unit
  }

  predicate PowerOfTwo(n: nat)
  {
    n == 1 || (n > 1 && n % 2 == 0 && PowerOfTwo(n / 2))
  }

  /** Where the chunks begin: after the zone's header, aligned to the chunk size if that is a power of two. */
  function FirstChunk(bytes: nat): (off: nat)
    requires 8 <= bytes
    ensures ZONE_HEADER <= off < ZONE_HEADER + bytes
    ensures PowerOfTwo(bytes) ==> MultipleOf(off, bytes)
  {
    if PowerOfTwo(bytes) then Up(ZONE_HEADER, bytes) else Up(ZONE_HEADER, 8)
  }

  function MaxChunks(zoneSize: nat, bytes: nat): int
    requires 8 <= bytes
  {
    (zoneSize - FirstChunk(bytes)) / bytes
  }

  /** Every size the zones serve leaves room for two chunks at least. */
  lemma TwoChunksFit(zoneSize: nat, n: nat)
    requires ZoneSize(zoneSize) && 0 < n < ZoneLimit(zoneSize)
    ensures n < 16384 && 8 <= ZoneIndex(n).bytes <= ZoneLimit(zoneSize)
    ensures MaxChunks(zoneSize, ZoneIndex(n).bytes) >= 2
  {
    ZoneIndexFits(n);
    var bytes := ZoneIndex(n).bytes;
    assert bytes <= ZoneLimit(zoneSize);
    QuotientAtLeast(zoneSize - FirstChunk(bytes), bytes, 2);
  }

  lemma QuotientAtLeast(a: nat, b: nat, k: nat)
    requires 0 < b && k * b <= a
    ensures a / b >= k
  {
    if a / b < k {
      TimesGrows(a / b + 1, k, b);
      assert false;
    }
  }

  lemma TimesGrows(x: nat, y: nat, b: nat)
    requires x <= y
    ensures x * b <= y * b
  {
  }

  /** Chunks lie inside the zone and do not overlap; those of a power-of-two size are aligned to it within the
      zone. */
  lemma ChunksApart(zoneSize: nat, bytes: nat, c: nat, d: nat)
    requires 8 <= bytes && FirstChunk(bytes) <= zoneSize && c < d < MaxChunks(zoneSize, bytes)
    ensures FirstChunk(bytes) + c * bytes + bytes <= FirstChunk(bytes) + d * bytes
    ensures FirstChunk(bytes) + d * bytes + bytes <= zoneSize
    ensures PowerOfTwo(bytes) ==> MultipleOf(FirstChunk(bytes) + d * bytes, bytes)
  {
    var room := zoneSize - FirstChunk(bytes);
    TimesGrows(c + 1, d, bytes);
    TimesGrows(d + 1, room / bytes, bytes);
    assert (room / bytes) * bytes <= room;
    if PowerOfTwo(bytes) {
      var k: nat :| FirstChunk(bytes) == k * bytes;
      assert FirstChunk(bytes) + d * bytes == (k + d) * bytes;
    }
  }

  // ---- one zone ----

  /** `uindex` is the highest chunk ever handed out, `nfree` the free ones, counted by the code. */
  datatype Zone = Zone(zone: nat, bytes: nat, nmax: nat, uindex: nat, nfree: nat, free: seq<nat>)

  ghost predicate ZoneOk(z: Zone)
  {
    && 2 <= z.nmax && z.uindex < z.nmax && z.zone < NZONES
    && Distinct(z.free) && (forall i :: 0 <= i < |z.free| ==> z.free[i] <= z.uindex)
    && z.nfree == z.nmax - 1 - z.uindex + |z.free|
  }

  predicate Live(z: Zone, c: nat) { c <= z.uindex && c !in z.free }

  function NewZone(zone: nat, bytes: nat, nmax: nat): Zone
    requires 0 < nmax
  {
    Zone(zone, bytes, nmax, 0, nmax - 1, [])
  }

  /** A chunk never used yet, or else the one freed last. */
  function NextChunk(z: Zone): nat
    requires ZoneOk(z) && z.nfree > 0
  {
    if z.uindex + 1 != z.nmax then z.uindex + 1 else z.free[0]
  }

  function TakeChunk(z: Zone): Zone
    requires ZoneOk(z) && z.nfree > 0
  {
    if z.uindex + 1 != z.nmax then z.(nfree := z.nfree - 1, uindex := z.uindex + 1)
    else z.(nfree := z.nfree - 1, free := z.free[1..])
  }

  function GiveChunk(z: Zone, c: nat): Zone { z.(nfree := z.nfree + 1, free := [c] + z.free) }

  lemma TakeChunkFacts(z: Zone)
    requires ZoneOk(z) && z.nfree > 0
    ensures ZoneOk(TakeChunk(z)) && !Live(z, NextChunk(z)) && NextChunk(z) < z.nmax
    ensures forall c: nat :: Live(TakeChunk(z), c) <==> Live(z, c) || c == NextChunk(z)
  {
    if z.uindex + 1 == z.nmax {
      DistinctTail(z.free);
      forall c: nat
        ensures c in z.free <==> c == z.free[0] || c in z.free[1..]
      {
        assert c in z.free <==> c in Elems(z.free);
        assert c in z.free[1..] <==> c in Elems(z.free[1..]);
      }
    } else {
      assert forall c :: c in z.free ==> c <= z.uindex;
    }
  }

  lemma GiveChunkFacts(z: Zone, c: nat)
    requires ZoneOk(z) && Live(z, c)
    ensures ZoneOk(GiveChunk(z, c)) && z.nfree < z.nmax
    ensures forall d: nat :: Live(GiveChunk(z, c), d) <==> Live(z, d) && d != c
  {
    DistinctCons(c, z.free);
    var r := [c] + z.free;
    Pigeonhole(r, z.uindex + 1);
  }

  lemma {:induction false} FullPigeonhole(s: seq<nat>, n: nat, x: nat)
    requires Distinct(s) && (forall i :: 0 <= i < |s| ==> s[i] < n) && |s| >= n && x < n
    ensures x in s
  {
    if x !in s {
      DistinctCons(x, s);
      Pigeonhole([x] + s, n);
    }
  }

  /** A zone counts as wholly free exactly when none of its chunks is live. */
  lemma WhollyFree(z: Zone)
    requires ZoneOk(z)
    ensures z.nfree == z.nmax <==> forall c: nat :: !Live(z, c)
  {
    Pigeonhole(z.free, z.uindex + 1);
    if z.nfree == z.nmax {
      forall c: nat | c <= z.uindex
        ensures c in z.free
      {
        FullPigeonhole(z.free, z.uindex + 1, c);
      }
    }
    if forall c: nat :: c <= z.uindex ==> c in z.free {
      AllListed(z.free, z.uindex + 1);
    } else {
      var c: nat :| c <= z.uindex && c !in z.free;
      assert Live(z, c);
    }
  }

  /** A list that holds every number below `n` has at least `n` places. */
  lemma {:induction false} AllListed(s: seq<nat>, n: nat)
    requires forall c: nat :: c < n ==> c in s
    ensures |s| >= n
    decreases n
  {
    if n > 0 {
      var last: nat := n - 1;
      assert last in s;
      var i :| 0 <= i < |s| && s[i] == last;
      var r := s[..i] + s[i + 1..];
      forall c: nat | c < n - 1
        ensures c in r
      {
        assert c in s;
        var j :| 0 <= j < |s| && s[j] == c;
        assert r[if j < i then j else j - 1] == c;
      }
      AllListed(r, n - 1);
    }
  }

  // ---- pages in use ----

  /** Where a page stands: in a zone, so many pages behind its first; first page of a large block of so many
      pages; or neither. */
  datatype Usage = Unused | Small(off: nat) | Large(pages: nat)

  predicate Separate(b: nat, m: nat, c: nat, n: nat) { b + m <= c || c + n <= b }

  /** The page ranges in use hold no free page and do not overlap. */
  ghost predicate PagesOwned(runs: seq<Run>, owned: map<nat, nat>)
  {
    && Canonical(runs)
    && (forall b :: b in owned ==> owned[b] > 0 && NoneFree(runs, b, owned[b]))
    && forall b, c :: b in owned && c in owned && b != c ==> Separate(b, owned[b], c, owned[c])
  }

  lemma PagesTaken(runs: seq<Run>, owned: map<nat, nat>, n: nat)
    requires PagesOwned(runs, owned) && Alloc(runs, n).start.Some?
    ensures var b := Alloc(runs, n).start.value;
            b !in owned && n > 0 && PagesOwned(Alloc(runs, n).runs, owned[b := n])
            && forall c :: c in owned ==> Separate(b, n, c, owned[c])
  {
    AllocFacts(runs, n);
    var a := Alloc(runs, n);
    var b := a.start.value;
    forall c | c in owned
      ensures c != b && Separate(b, n, c, owned[c]) && NoneFree(a.runs, c, owned[c])
    {
      assert !FreePage(runs, c) && FreePage(runs, b);
    }
    forall p | b <= p < b + n
      ensures !FreePage(a.runs, p)
    {
    }
  }

  lemma PagesGiven(runs: seq<Run>, owned: map<nat, nat>, b: nat)
    requires PagesOwned(runs, owned) && b in owned
    ensures PagesOwned(Free(runs, b, owned[b]), owned - {b})
  {
    FreeFacts(runs, b, owned[b]);
    var r := Free(runs, b, owned[b]);
    forall c | c in owned && c != b
      ensures NoneFree(r, c, owned[c])
    {
      assert Separate(b, owned[b], c, owned[c]);
    }
  }

  // ---- the allocator ----

  /** `lists` are the zones with free chunks by chunk size, `parked` wholly free zones kept for later, `owned`
      all page ranges in use. */
  datatype State = State(
    zoneSize: nat, runs: seq<Run>, owned: map<nat, nat>, large: set<nat>, usage: map<nat, Usage>,
    zones: map<nat, Zone>, lists: seq<seq<nat>>, parked: seq<nat>)

  function ZonePages(s: State): nat { s.zoneSize / PAGE }

  ghost predicate KindsOk(s: State)
  {
    && ZoneSize(s.zoneSize) && PagesOwned(s.runs, s.owned)
    && s.owned.Keys == s.zones.Keys + Elems(s.parked) + s.large
    && s.zones.Keys !! Elems(s.parked) !! s.large
    && (forall b :: b in s.zones || b in s.parked ==> b in s.owned && s.owned[b] == ZonePages(s))
    && Distinct(s.parked) && |s.parked| <= RELEASE_THRESH
  }

  ghost predicate ZoneFits(s: State, z: Zone)
  {
    && ZoneOk(z) && z.bytes == ChunkSize(z.zone) && 8 <= z.bytes && z.nmax == MaxChunks(s.zoneSize, z.bytes)
  }

  ghost predicate ZonesOk(s: State)
  {
    forall b :: b in s.zones ==> ZoneFits(s, s.zones[b])
  }

  /** Exactly the zones with free chunks are on the list of their size, once. */
  ghost predicate ListsOk(s: State)
  {
    && |s.lists| == NZONES && (forall i :: 0 <= i < NZONES ==> Distinct(s.lists[i]))
    && forall i, b: nat :: 0 <= i < NZONES ==> (b in s.lists[i] <==> Available(s.zones, b, i))
  }

  ghost predicate Available(zones: map<nat, Zone>, b: nat, i: nat)
  {
    b in zones && zones[b].zone == i && zones[b].nfree > 0
  }

  /** Every page of a zone knows its distance from the zone's first page, and a large block its length. */
  ghost predicate UsageOk(s: State)
  {
    forall b :: b in s.owned ==> Marked(s.usage, b, s.owned[b], b in s.large)
  }

  ghost predicate Marked(usage: map<nat, Usage>, b: nat, n: nat, large: bool)
  {
    if large then b in usage && usage[b] == Large(n)
    else forall p :: b <= p < b + n ==> p in usage && usage[p] == Small(p - b)
  }

  /** Marking other pages leaves a range's marks alone. */
  lemma MarkedElsewhere(usage: map<nat, Usage>, now: map<nat, Usage>, b: nat, n: nat, large: bool, c: nat, m: nat)
    requires Marked(usage, b, n, large) && Separate(b, n, c, m) && 0 < n
    requires forall p: nat :: p in usage && !(c <= p < c + m) ==> p in now && now[p] == usage[p]
    ensures Marked(now, b, n, large)
  {
  }

  ghost predicate Inv(s: State)
  {
    KindsOk(s) && ZonesOk(s) && ListsOk(s) && UsageOk(s)
  }

  datatype Ptr = Null | Chunk(base: nat, index: nat) | Block(page: nat)

  datatype Result = Result(p: Ptr, s: State)

  /** `n` pages from page `b` on are marked as a zone's, or as unused. */
  function MarkPages(usage: map<nat, Usage>, b: nat, n: nat, zone: bool): (r: map<nat, Usage>)
    ensures forall p: nat :: p in r <==> p in usage || b <= p < b + n
    ensures forall p: nat :: p in r ==> r[p] == if b <= p < b + n then if zone then Small(p - b) else Unused else usage[p]
  {
    if n == 0 then usage
    else MarkPages(usage, b, n - 1, zone)[b + n - 1 := if zone then Small(n - 1) else Unused]
  }

  /** A block of whole pages. */
  function MallocLarge(s: State, pages: nat): Result
  {
    var a := Alloc(s.runs, pages);
    if a.start == None then Result(Null, s)
    else
      var b := a.start.value;
      Result(Block(b), s.(runs := a.runs, owned := s.owned[b := pages], large := s.large + {b},
                          usage := s.usage[b := Large(pages)]))
  }

  /** A chunk of the zone at the head of its list; a zone without further free chunks leaves the list. */
  function MallocFrom(s: State, i: nat): Result
    requires ListsOk(s) && ZonesOk(s) && i < NZONES && s.lists[i] != []
  {
    var b := s.lists[i][0];
    assert b in s.lists[i];
    var z := s.zones[b];
    Result(Chunk(b, NextChunk(z)),
           s.(zones := s.zones[b := TakeChunk(z)], lists := if z.nfree == 1 then s.lists[i := s.lists[i][1..]] else s.lists))
  }

  /** A zone for a size that has none with free chunks: a parked one, or fresh pages. */
  function MallocNew(s: State, i: nat): Result
    requires i < NZONES == |s.lists|
  {
    var bytes := ChunkSize(i);
    if s.parked != [] then
      var b := s.parked[0];
      OpenZone(s.(parked := s.parked[1..]), b, i)
    else
      var a := Alloc(s.runs, ZonePages(s));
      if a.start == None then Result(Null, s)
      else
        var b := a.start.value;
        OpenZone(s.(runs := a.runs, owned := s.owned[b := ZonePages(s)], usage := MarkPages(s.usage, b, ZonePages(s), true)), b, i)
  }

  function OpenZone(s: State, b: nat, i: nat): Result
    requires i < NZONES == |s.lists|
  {
    var n := MaxChunks(s.zoneSize, ChunkSize(i));
    if n <= 0 then Result(Null, s)
    else
      Result(Chunk(b, 0), s.(zones := s.zones[b := NewZone(i, ChunkSize(i), n)], lists := s.lists[i := [b] + s.lists[i]]))
  }

  function Malloc(s: State, size: nat): Result
    requires Inv(s) && size < 0x1_0000_0000
  {
    if size == 0 then Result(Null, s)
    else if size >= ZoneLimit(s.zoneSize) then MallocLarge(s, (size + PAGE - 1) % 0x1_0000_0000 / PAGE)
    else
      TwoChunksFit(s.zoneSize, size);
      ZoneIndexFits(size);
      var i := ZoneIndex(size).zone;
      if s.lists[i] != [] then MallocFrom(s, i) else MallocNew(s, i)
  }

  // ---- allocation keeps the invariant ----

  lemma MallocLargeInv(s: State, pages: nat)
    requires Inv(s)
    ensures Inv(MallocLarge(s, pages).s)
  {
    if Alloc(s.runs, pages).start.Some? {
      PagesTaken(s.runs, s.owned, pages);
      var b := Alloc(s.runs, pages).start.value;
      var r := MallocLarge(s, pages).s;
      forall c | c in r.owned
        ensures Marked(r.usage, c, r.owned[c], c in r.large)
      {
        if c != b {
          MarkedElsewhere(s.usage, r.usage, c, s.owned[c], c in s.large, b, pages);
        }
      }
    }
  }

  lemma MallocFromInv(s: State, i: nat)
    requires Inv(s) && i < NZONES && s.lists[i] != []
    ensures Inv(MallocFrom(s, i).s)
  {
    var b := s.lists[i][0];
    assert b in s.lists[i];
    TakeChunkFacts(s.zones[b]);
    ListsAfterTake(s, i, MallocFrom(s, i).s);
    SameZones(s, MallocFrom(s, i).s);
  }

  lemma ListsAfterTake(s: State, i: nat, r: State)
    requires ZonesOk(s) && ListsOk(s) && i < NZONES && s.lists[i] != [] && r == MallocFrom(s, i).s
    ensures ListsOk(r)
  {
    var b := s.lists[i][0];
    assert b in s.lists[i] && Available(s.zones, b, i);
    DistinctTail(s.lists[i]);
    forall j, c: nat | 0 <= j < NZONES
      ensures c in r.lists[j] <==> Available(r.zones, c, j)
    {
      assert c in s.lists[j] <==> Available(s.zones, c, j);
      if j == i {
        InTail(s.lists[i], c);
      }
    }
  }

  lemma InTail(list: seq<nat>, c: nat)
    requires Distinct(list) && list != []
    ensures c in list[1..] <==> c in list && c != list[0]
  {
    DistinctTail(list);
    assert c in list <==> c in Elems(list);
    assert c in list[1..] <==> c in Elems(list[1..]);
  }

  /** Nothing about pages changes when the same zones are in use. */
  lemma SameZones(s: State, r: State)
    requires KindsOk(s) && UsageOk(s) && r.zones.Keys == s.zones.Keys
    requires r.zoneSize == s.zoneSize && r.runs == s.runs && r.owned == s.owned && r.large == s.large
    requires r.usage == s.usage && r.parked == s.parked
    ensures KindsOk(r) && UsageOk(r)
  {
  }

  /** A zone is opened on pages that are in use, marked as a zone's, and not otherwise taken. */
  lemma OpenZoneInv(s: State, b: nat, i: nat)
    requires i < NZONES && ZonesOk(s) && ListsOk(s) && b !in s.zones
    requires MaxChunks(s.zoneSize, ChunkSize(i)) >= 2 && ChunkSize(i) >= 8
    ensures ZonesOk(OpenZone(s, b, i).s) && ListsOk(OpenZone(s, b, i).s)
  {
    var r := OpenZone(s, b, i).s;
    assert b in s.lists[i] <==> Available(s.zones, b, i);
    DistinctCons(b, s.lists[i]);
    forall j, c: nat | 0 <= j < NZONES
      ensures c in r.lists[j] <==> Available(r.zones, c, j)
    {
      assert c in s.lists[j] <==> Available(s.zones, c, j);
    }
  }

  lemma MallocNewInv(s: State, i: nat)
    requires Inv(s) && i < NZONES && MaxChunks(s.zoneSize, ChunkSize(i)) >= 2
    ensures Inv(MallocNew(s, i).s)
  {
    if s.parked != [] {
      UnparkInv(s, i);
    } else if Alloc(s.runs, ZonePages(s)).start.Some? {
      FreshZoneInv(s, i);
    }
  }

  lemma UnparkInv(s: State, i: nat)
    requires Inv(s) && i < NZONES && MaxChunks(s.zoneSize, ChunkSize(i)) >= 2 && s.parked != []
    ensures Inv(MallocNew(s, i).s)
  {
    var b, m := s.parked[0], s.(parked := s.parked[1..]);
    DistinctTail(s.parked);
    assert b in s.parked && b in Elems(s.parked);
    OpenZoneInv(m, b, i);
    UnparkedPages(s, b, MallocNew(s, i).s);
  }

  lemma UnparkedPages(s: State, b: nat, r: State)
    requires KindsOk(s) && UsageOk(s) && s.parked != [] && b == s.parked[0]
    requires r.zones.Keys == s.zones.Keys + {b} && r.parked == s.parked[1..]
    requires r.zoneSize == s.zoneSize && r.runs == s.runs && r.owned == s.owned && r.large == s.large && r.usage == s.usage
    ensures KindsOk(r) && UsageOk(r)
  {
    DistinctTail(s.parked);
    forall c: nat
      ensures c in r.zones || c in r.parked <==> c in s.zones || c in s.parked
    {
      InTail(s.parked, c);
      assert c in r.zones <==> c in r.zones.Keys;
    }
  }

  lemma FreshZoneInv(s: State, i: nat)
    requires Inv(s) && i < NZONES && MaxChunks(s.zoneSize, ChunkSize(i)) >= 2
    requires s.parked == [] && Alloc(s.runs, ZonePages(s)).start.Some?
    ensures Inv(MallocNew(s, i).s)
  {
    var b := Alloc(s.runs, ZonePages(s)).start.value;
    PagesTaken(s.runs, s.owned, ZonePages(s));
    var r := MallocNew(s, i).s;
    OpenZoneInv(s.(runs := r.runs, owned := r.owned, usage := r.usage), b, i);
    FreshKinds(s, b, r);
    FreshUsage(s, b, r);
  }

  lemma FreshKinds(s: State, b: nat, r: State)
    requires KindsOk(s) && s.parked == [] && r.parked == [] && b !in s.owned && r.owned == s.owned[b := ZonePages(s)]
    requires PagesOwned(r.runs, r.owned) && r.zones.Keys == s.zones.Keys + {b}
    requires r.zoneSize == s.zoneSize && r.large == s.large
    ensures KindsOk(r)
  {
    forall c | c in r.zones
      ensures c in r.owned && r.owned[c] == ZonePages(r)
    {
      assert c in r.zones.Keys;
    }
    assert r.owned.Keys == s.owned.Keys + {b};
  }

  lemma FreshUsage(s: State, b: nat, r: State)
    requires KindsOk(s) && UsageOk(s) && s.parked == [] && r.parked == [] && b !in s.owned
    requires r.owned == s.owned[b := ZonePages(s)] && r.zones.Keys == s.zones.Keys + {b} && r.zoneSize == s.zoneSize
    requires r.large == s.large && r.usage == MarkPages(s.usage, b, ZonePages(s), true)
    requires forall c :: c in s.owned ==> Separate(b, ZonePages(s), c, s.owned[c])
    ensures UsageOk(r)
  {
    forall c | c in r.owned
      ensures Marked(r.usage, c, r.owned[c], c in r.large)
    {
      if c != b {
        MarkedElsewhere(s.usage, r.usage, c, s.owned[c], c in s.large, b, ZonePages(s));
      } else {
        assert b !in s.owned.Keys;
      }
    }
  }

  lemma MallocInv(s: State, size: nat)
    requires Inv(s) && size < 0x1_0000_0000
    ensures Inv(Malloc(s, size).s)
  {
    if size != 0 {
      if size >= ZoneLimit(s.zoneSize) {
        MallocLargeInv(s, (size + PAGE - 1) % 0x1_0000_0000 / PAGE);
      } else {
        TwoChunksFit(s.zoneSize, size);
        ZoneIndexFits(size);
        var i := ZoneIndex(size).zone;
        if s.lists[i] != [] {
          MallocFromInv(s, i);
        } else {
          MallocNewInv(s, i);
        }
      }
    }
  }

  // ---- release ----

  predicate LivePtr(s: State, p: Ptr)
  {
    match p
    case Null => false
    case Chunk(b, c) => b in s.zones && Live(s.zones[b], c)
    case Block(b) => b in s.large
  }

  function FreeLarge(s: State, b: nat): State
    requires b in s.owned
  {
    s.(runs := Free(s.runs, b, s.owned[b]), owned := s.owned - {b}, large := s.large - {b}, usage := s.usage[b := Large(0)])
  }

  /** The chunk goes back to its zone, and a zone that had none free back onto its list. */
  function Returned(s: State, b: nat, c: nat): State
    requires b in s.zones && s.zones[b].zone < NZONES == |s.lists|
  {
    var z := s.zones[b];
    s.(zones := s.zones[b := GiveChunk(z, c)],
       lists := if z.nfree == 0 then s.lists[z.zone := [b] + s.lists[z.zone]] else s.lists)
  }

  /** A wholly free zone leaves its list; it is parked, or its pages are released when enough are parked. */
  function Retired(s: State, b: nat): State
    requires b in s.zones && s.zones[b].zone < NZONES == |s.lists| && b in s.owned
  {
    var i := s.zones[b].zone;
    var m := s.(zones := s.zones - {b}, lists := s.lists[i := Without(s.lists[i], b)]);
    if |s.parked| < RELEASE_THRESH then m.(parked := [b] + s.parked)
    else
      m.(runs := Free(s.runs, b, s.owned[b]), owned := s.owned - {b},
         usage := MarkPages(s.usage, b, s.owned[b], false))
  }

  function FreeChunk(s: State, b: nat, c: nat): State
    requires Inv(s) && LivePtr(s, Chunk(b, c))
  {
    var r := Returned(s, b, c);
    var z := r.zones[b];
    if z.nfree == z.nmax && |r.lists[z.zone]| > 1 then Retired(r, b) else r
  }

  function Release(s: State, p: Ptr): State
    requires Inv(s) && (p == Null || LivePtr(s, p))
  {
    match p
    case Null => s
    case Chunk(b, c) => FreeChunk(s, b, c)
    case Block(b) => FreeLarge(s, b)
  }

  lemma FreeLargeInv(s: State, b: nat)
    requires Inv(s) && b in s.large
    ensures b in s.owned && Inv(FreeLarge(s, b))
  {
    assert b in s.owned.Keys;
    PagesGiven(s.runs, s.owned, b);
    var r := FreeLarge(s, b);
    assert r.owned.Keys == s.owned.Keys - {b};
    forall c | c in r.owned
      ensures Marked(r.usage, c, r.owned[c], c in r.large)
    {
      assert Separate(c, s.owned[c], b, s.owned[b]) && s.owned[b] > 0;
      MarkedElsewhere(s.usage, r.usage, c, s.owned[c], c in s.large, b, s.owned[b]);
    }
    forall c | c in r.zones || c in r.parked
      ensures c in r.owned && r.owned[c] == ZonePages(r)
    {
      assert c in s.zones.Keys || c in Elems(s.parked);
    }
  }

  lemma ReturnedInv(s: State, b: nat, c: nat)
    requires Inv(s) && LivePtr(s, Chunk(b, c))
    ensures Inv(Returned(s, b, c))
  {
    GiveChunkFacts(s.zones[b], c);
    SameZones(s, Returned(s, b, c));
    ListsAfterReturn(s, b, c, Returned(s, b, c));
  }

  lemma ListsAfterReturn(s: State, b: nat, c: nat, r: State)
    requires ZonesOk(s) && ListsOk(s) && b in s.zones && r == Returned(s, b, c)
    ensures ListsOk(r)
  {
    var i := s.zones[b].zone;
    assert b in s.lists[i] <==> Available(s.zones, b, i);
    if s.zones[b].nfree == 0 {
      DistinctCons(b, s.lists[i]);
    }
    forall j, d: nat | 0 <= j < NZONES
      ensures d in r.lists[j] <==> Available(r.zones, d, j)
    {
      assert d in s.lists[j] <==> Available(s.zones, d, j);
    }
  }

  lemma RetiredInv(s: State, b: nat)
    requires Inv(s) && b in s.zones && s.zones[b].nfree == s.zones[b].nmax
    ensures b in s.owned && Inv(Retired(s, b))
  {
    assert b in s.zones.Keys && b in s.owned.Keys;
    ListsAfterRetire(s, b, Retired(s, b));
    if |s.parked| < RELEASE_THRESH {
      ParkedPages(s, b, Retired(s, b));
    } else {
      DroppedPages(s, b, Retired(s, b));
    }
  }

  lemma ListsAfterRetire(s: State, b: nat, r: State)
    requires ZonesOk(s) && ListsOk(s) && b in s.zones && b in s.owned && r == Retired(s, b)
    ensures ListsOk(r) && ZonesOk(r)
  {
    var i := s.zones[b].zone;
    WithoutDistinct(s.lists[i], b);
    forall j, d: nat | 0 <= j < NZONES
      ensures d in r.lists[j] <==> Available(r.zones, d, j)
    {
      assert d in s.lists[j] <==> Available(s.zones, d, j);
    }
  }

  lemma ParkedPages(s: State, b: nat, r: State)
    requires KindsOk(s) && UsageOk(s) && b in s.zones && |s.parked| < RELEASE_THRESH
    requires r.zones.Keys == s.zones.Keys - {b} && r.parked == [b] + s.parked
    requires r.zoneSize == s.zoneSize && r.runs == s.runs && r.owned == s.owned && r.large == s.large && r.usage == s.usage
    ensures KindsOk(r) && UsageOk(r)
  {
    assert b in s.zones.Keys && b !in Elems(s.parked);
    DistinctCons(b, s.parked);
    forall c: nat
      ensures c in r.zones || c in r.parked <==> c in s.zones || c in s.parked
    {
      assert c in r.zones <==> c in r.zones.Keys;
    }
  }

  lemma DroppedPages(s: State, b: nat, r: State)
    requires KindsOk(s) && UsageOk(s) && b in s.zones && b in s.owned
    requires r.zones.Keys == s.zones.Keys - {b} && r.parked == s.parked && r.zoneSize == s.zoneSize && r.large == s.large
    requires r.runs == Free(s.runs, b, s.owned[b]) && r.owned == s.owned - {b}
    requires r.usage == MarkPages(s.usage, b, s.owned[b], false)
    ensures KindsOk(r) && UsageOk(r)
  {
    assert b in s.zones.Keys;
    PagesGiven(s.runs, s.owned, b);
    forall c | c in r.owned
      ensures Marked(r.usage, c, r.owned[c], c in r.large)
    {
      assert Separate(c, s.owned[c], b, s.owned[b]);
      MarkedElsewhere(s.usage, r.usage, c, s.owned[c], c in s.large, b, s.owned[b]);
    }
    DroppedKinds(s, b, r);
  }

  lemma DroppedKinds(s: State, b: nat, r: State)
    requires KindsOk(s) && b in s.zones && b in s.owned && PagesOwned(r.runs, r.owned)
    requires r.zones.Keys == s.zones.Keys - {b} && r.parked == s.parked && r.zoneSize == s.zoneSize && r.large == s.large
    requires r.owned == s.owned - {b}
    ensures KindsOk(r)
  {
    assert b in s.zones.Keys;
    assert r.owned.Keys == s.owned.Keys - {b};
    forall c | c in r.zones || c in r.parked
      ensures c in r.owned && r.owned[c] == ZonePages(r)
    {
      assert c in r.zones ==> c in r.zones.Keys;
      assert c in s.parked ==> c in Elems(s.parked);
    }
  }

  lemma ReleaseInv(s: State, p: Ptr)
    requires Inv(s) && (p == Null || LivePtr(s, p))
    ensures Inv(Release(s, p))
  {
    match p {
      case Null =>
      case Chunk(b, c) =>
        ReturnedInv(s, b, c);
        var r := Returned(s, b, c);
        if r.zones[b].nfree == r.zones[b].nmax && |r.lists[r.zones[b].zone]| > 1 {
          RetiredInv(r, b);
        }
      case Block(b) => FreeLargeInv(s, b);
    }
  }

  // ---- what is live ----

  /** A successful allocation makes one more pointer live, which was not live before; a failed one changes
      nothing. */
  lemma MallocLive(s: State, size: nat)
    requires Inv(s) && size < 0x1_0000_0000
    ensures var r := Malloc(s, size);
            && (r.p == Null ==> r.s == s)
            && (r.p != Null ==> !LivePtr(s, r.p) && forall p :: LivePtr(r.s, p) <==> LivePtr(s, p) || p == r.p)
  {
    if size != 0 {
      if size >= ZoneLimit(s.zoneSize) {
        LargeLive(s, (size + PAGE - 1) % 0x1_0000_0000 / PAGE);
      } else {
        TwoChunksFit(s.zoneSize, size);
        ZoneIndexFits(size);
        var i := ZoneIndex(size).zone;
        if s.lists[i] != [] {
          FromLive(s, i);
        } else {
          NewLive(s, i);
        }
      }
    }
  }

  lemma LargeLive(s: State, pages: nat)
    requires Inv(s)
    ensures var r := MallocLarge(s, pages);
            && (r.p == Null ==> r.s == s)
            && (r.p != Null ==> !LivePtr(s, r.p) && forall p :: LivePtr(r.s, p) <==> LivePtr(s, p) || p == r.p)
  {
    if Alloc(s.runs, pages).start.Some? {
      PagesTaken(s.runs, s.owned, pages);
      assert Alloc(s.runs, pages).start.value !in s.owned.Keys;
    }
  }

  lemma FromLive(s: State, i: nat)
    requires Inv(s) && i < NZONES && s.lists[i] != []
    ensures var r := MallocFrom(s, i);
            r.p != Null && !LivePtr(s, r.p) && forall p :: LivePtr(r.s, p) <==> LivePtr(s, p) || p == r.p
  {
    var b := s.lists[i][0];
    assert b in s.lists[i] && Available(s.zones, b, i);
    TakeChunkFacts(s.zones[b]);
  }

  lemma NewLive(s: State, i: nat)
    requires Inv(s) && i < NZONES && MaxChunks(s.zoneSize, ChunkSize(i)) >= 2
    ensures var r := MallocNew(s, i);
            && (r.p == Null ==> r.s == s)
            && (r.p != Null ==> !LivePtr(s, r.p) && forall p :: LivePtr(r.s, p) <==> LivePtr(s, p) || p == r.p)
  {
    if s.parked != [] {
      assert s.parked[0] in Elems(s.parked);
      assert s.parked[0] !in s.zones.Keys;
    } else if Alloc(s.runs, ZonePages(s)).start.Some? {
      PagesTaken(s.runs, s.owned, ZonePages(s));
      assert Alloc(s.runs, ZonePages(s)).start.value !in s.owned.Keys;
    }
  }

  /** Releasing a pointer makes it, and nothing else, not live. */
  lemma ReleaseLive(s: State, p: Ptr)
    requires Inv(s) && LivePtr(s, p)
    ensures forall q :: LivePtr(Release(s, p), q) <==> LivePtr(s, q) && q != p
  {
    if p.Chunk? {
      var b, c := p.base, p.index;
      GiveChunkFacts(s.zones[b], c);
      var r := Returned(s, b, c);
      WhollyFree(r.zones[b]);
      assert r.zones[b].nfree == r.zones[b].nmax ==> forall d: nat :: !LivePtr(r, Chunk(b, d));
    }
  }

  /** Where a live pointer's bytes are. */
  function Start(s: State, p: Ptr): nat
    requires p.Chunk? ==> p.base in s.zones && s.zones[p.base].bytes >= 8
    requires p != Null
  {
    match p
    case Chunk(b, c) => b * PAGE + FirstChunk(s.zones[b].bytes) + c * s.zones[b].bytes
    case Block(b) => b * PAGE
  }

  function Length(s: State, p: Ptr): nat
    requires p.Chunk? ==> p.base in s.zones
    requires p.Block? ==> p.page in s.owned
  {
    match p
    case Null => 0
    case Chunk(b, c) => s.zones[b].bytes
    case Block(b) => s.owned[b] * PAGE
  }

  function Home(p: Ptr): nat
    requires p != Null
  {
    if p.Chunk? then p.base else p.page
  }

  /** Live bytes stay within their page range. */
  lemma LiveWithin(s: State, p: Ptr)
    requires Inv(s) && LivePtr(s, p)
    ensures p.Chunk? ==> p.base in s.zones && s.zones[p.base].bytes >= 8
    ensures p.Block? ==> p.page in s.owned
    ensures Home(p) in s.owned
    ensures Home(p) * PAGE <= Start(s, p) && Start(s, p) + Length(s, p) <= (Home(p) + s.owned[Home(p)]) * PAGE
  {
    if p.Chunk? {
      ChunkWithin(s, p.base, p.index);
    } else {
      assert p.page in s.owned.Keys;
    }
  }

  lemma ChunkWithin(s: State, b: nat, c: nat)
    requires KindsOk(s) && ZonesOk(s) && LivePtr(s, Chunk(b, c))
    ensures b in s.zones && s.zones[b].bytes >= 8 && b in s.owned
    ensures b * PAGE <= Start(s, Chunk(b, c))
    ensures Start(s, Chunk(b, c)) + s.zones[b].bytes <= (b + s.owned[b]) * PAGE
  {
    assert b in s.zones.Keys;
    var z := s.zones[b];
    assert ZoneFits(s, z) && c < MaxChunks(s.zoneSize, z.bytes);
    InZone(s.zoneSize, z.bytes, c);
    var x := c * z.bytes;
    InPages(s.zoneSize, b, FirstChunk(z.bytes), x, z.bytes);
  }

  lemma InPages(zoneSize: nat, b: nat, off: nat, x: nat, bytes: nat)
    requires ZoneSize(zoneSize) && off + x + bytes <= zoneSize
    ensures b * PAGE + off + x + bytes <= (b + zoneSize / PAGE) * PAGE
  {
  }

  lemma InZone(zoneSize: nat, bytes: nat, c: nat)
    requires 8 <= bytes && c < MaxChunks(zoneSize, bytes)
    ensures FirstChunk(bytes) + c * bytes + bytes <= zoneSize
  {
    var room := zoneSize - FirstChunk(bytes);
    if room < 0 {
      assert false;
    }
    TimesGrows(c + 1, room / bytes, bytes);
    assert (room / bytes) * bytes <= room;
  }

  lemma RangesSeparate(b: nat, m: nat, c: nat, n: nat, x: nat, k: nat, y: nat, l: nat)
    requires Separate(b, m, c, n)
    requires b * PAGE <= x && x + k <= (b + m) * PAGE && c * PAGE <= y && y + l <= (c + n) * PAGE
    ensures Separate(x, k, y, l)
  {
  }

  /** Live chunks and large blocks never share a byte. */
  lemma LiveDisjoint(s: State, p: Ptr, q: Ptr)
    requires Inv(s) && LivePtr(s, p) && LivePtr(s, q) && p != q
    ensures p.Chunk? ==> p.base in s.zones && s.zones[p.base].bytes >= 8
    ensures q.Chunk? ==> q.base in s.zones && s.zones[q.base].bytes >= 8
    ensures p.Block? ==> p.page in s.owned
    ensures q.Block? ==> q.page in s.owned
    ensures Separate(Start(s, p), Length(s, p), Start(s, q), Length(s, q))
  {
    LiveWithin(s, p);
    LiveWithin(s, q);
    if Home(p) != Home(q) {
      RangesSeparate(Home(p), s.owned[Home(p)], Home(q), s.owned[Home(q)],
                     Start(s, p), Length(s, p), Start(s, q), Length(s, q));
    } else {
      SameZone(s, p, q);
    }
  }

  /** Two live pointers with one home are two chunks of one zone. */
  lemma SameZone(s: State, p: Ptr, q: Ptr)
    requires KindsOk(s) && ZonesOk(s) && LivePtr(s, p) && LivePtr(s, q) && p != q && Home(p) == Home(q)
    ensures p.Chunk? && q.Chunk? && p.base == q.base && p.base in s.zones && s.zones[p.base].bytes >= 8
    ensures Separate(Start(s, p), Length(s, p), Start(s, q), Length(s, q))
  {
    assert p.Chunk? <==> Home(p) in s.zones.Keys;
    assert q.Chunk? <==> Home(q) in s.zones.Keys;
    var z := s.zones[p.base];
    assert ZoneFits(s, z);
    ChunksSeparate(p.index, q.index, z.bytes);
  }

  lemma ChunksSeparate(c: nat, d: nat, bytes: nat)
    requires c != d
    ensures Separate(c * bytes, bytes, d * bytes, bytes)
  {
    if c < d {
      TimesGrows(c + 1, d, bytes);
    } else {
      TimesGrows(d + 1, c, bytes);
    }
  }

  /** From any byte of a live chunk the page usage leads back to the chunk's zone. */
  lemma UsageFindsZone(s: State, b: nat, c: nat, a: nat)
    requires Inv(s) && LivePtr(s, Chunk(b, c))
    requires b in s.zones && s.zones[b].bytes >= 8
    requires Start(s, Chunk(b, c)) <= a < Start(s, Chunk(b, c)) + s.zones[b].bytes
    ensures a / PAGE in s.usage && s.usage[a / PAGE].Small? && a / PAGE - s.usage[a / PAGE].off == b
  {
    LiveWithin(s, Chunk(b, c));
    assert b in s.zones.Keys && b in s.owned && b !in s.large;
    assert Marked(s.usage, b, s.owned[b], false);
    assert b <= a / PAGE < b + s.owned[b];
  }

  // ---- runs ----

  datatype Call = Get(size: nat) | Put(p: Ptr) | Resize(p: Ptr, size: nat)

  /** Null is an allocation and size zero a release; a chunk whose size class stays is kept; everything else is
      allocated anew and the old place released, or nothing happens when there is no room. */
  function Realloc(s: State, p: Ptr, size: nat): Result
    requires Inv(s) && size < 0x1_0000_0000 && (p == Null || LivePtr(s, p))
  {
    if p == Null then Malloc(s, size)
    else if size == 0 then Result(Null, Release(s, p))
    else
      var bytes := if p.Block? || size >= 16384 then size else ZoneIndex(size).bytes;
      if p.Chunk? && s.zones[p.base].bytes == bytes then Result(p, s)
      else
        ResizedBelowWord(size);
        Moved(s, p, bytes)
  }

  /** A new place is allocated before the old one is released. */
  function Moved(s: State, p: Ptr, bytes: nat): Result
    requires Inv(s) && bytes < 0x1_0000_0000 && LivePtr(s, p)
  {
    MallocInv(s, bytes);
    MallocLive(s, bytes);
    var r := Malloc(s, bytes);
    if r.p == Null then r else Result(r.p, Release(r.s, p))
  }

  lemma ResizedBelowWord(size: nat)
    ensures 0 < size < 16384 ==> ZoneIndex(size).bytes < 0x1_0000_0000
  {
    if 0 < size < 16384 {
      ZoneIndexFits(size);
    }
  }

  /** One call; sizes beyond 32 bits and pointers that are not live are not calls. */
  function Step(s: State, e: Call): (r: State)
    requires Inv(s)
    ensures Inv(r)
  {
    match e
    case Get(size) =>
      if size < 0x1_0000_0000 then
        MallocInv(s, size);
        Malloc(s, size).s
      else s
    case Put(p) =>
      if LivePtr(s, p) then
        ReleaseInv(s, p);
        Release(s, p)
      else s
    case Resize(p, size) =>
      if size < 0x1_0000_0000 && (p == Null || LivePtr(s, p)) then
        ReallocInv(s, p, size);
        Realloc(s, p, size).s
      else s
  }

  /** Resizing keeps the invariant; on failure the old pointer stays live, on success it gives way to the new. */
  lemma ReallocInv(s: State, p: Ptr, size: nat)
    requires Inv(s) && size < 0x1_0000_0000 && (p == Null || LivePtr(s, p))
    ensures var r := Realloc(s, p, size);
            && Inv(r.s)
            && (0 < size && r.p == Null ==> r.s == s)
            && (0 < size && r.p != Null && p != Null ==>
                 LivePtr(r.s, r.p) && forall q :: LivePtr(r.s, q) <==> q == r.p || (LivePtr(s, q) && q != p))
  {
    if p == Null {
      MallocInv(s, size);
      MallocLive(s, size);
    } else if size == 0 {
      ReleaseInv(s, p);
    } else {
      var bytes := if p.Block? || size >= 16384 then size else ZoneIndex(size).bytes;
      if !(p.Chunk? && s.zones[p.base].bytes == bytes) {
        ResizedBelowWord(size);
        MovedInv(s, p, bytes);
      }
    }
  }

  lemma MovedInv(s: State, p: Ptr, bytes: nat)
    requires Inv(s) && bytes < 0x1_0000_0000 && LivePtr(s, p)
    ensures var r := Moved(s, p, bytes);
            && Inv(r.s) && (r.p == Null ==> r.s == s)
            && (r.p != Null ==>
                 LivePtr(r.s, r.p) && forall q :: LivePtr(r.s, q) <==> q == r.p || (LivePtr(s, q) && q != p))
  {
    MallocInv(s, bytes);
    MallocLive(s, bytes);
    var r := Malloc(s, bytes);
    if r.p != Null {
      ReleaseInv(r.s, p);
      ReleaseLive(r.s, p);
    }
  }

  function Run(s: State, calls: seq<Call>): (r: State)
    requires Inv(s)
    ensures Inv(r)
    decreases |calls|
  {
    if calls == [] then s else Run(Step(s, calls[0]), calls[1..])
  }

  /** The zone size the initialisation settles on for so many pages. */
  predicate Suits(zoneSize: nat, npages: nat)
  {
    && ZoneSize(zoneSize) && (zoneSize == 131072 || 2 * zoneSize >= npages * PAGE / 1024)
    && (zoneSize == 32768 || zoneSize < npages * PAGE / 1024)
  }

  /** Pages of the usage table, four bytes for each page of the heap. */
  function TablePages(npages: nat): (n: nat)
    ensures 0 < npages ==> 0 < n <= npages
  {
    Up(npages * 4, PAGE) / PAGE
  }

  /** The heap after initialisation: the usage table takes the first pages, the others are free. */
  function Fresh(zoneSize: nat, npages: nat): (s: State)
    requires ZoneSize(zoneSize) && 0 < npages
    ensures Inv(s)
  {
    AllocFacts([PageAllocator.Run(0, npages)], TablePages(npages));
    State(zoneSize, Alloc([PageAllocator.Run(0, npages)], TablePages(npages)).runs, map[], {}, map[], map[],
          seq(NZONES, _ => []), [])
  }
}
