/** The slab allocator in place (os/slab.c): zone headers, the zone array, the free zones with their counter and
    the usage table, over the page list. Each call is proved equal to what Slab says it does to the whole state. */
module SlabHeap {
  import PageAllocator
  import Slab
  import SlabSizes
  import SmallMem
  import opened WaitList

  type Option<T> = PageAllocator.Option<T>
  type Ptr = Slab.Ptr
  type Zone = Slab.Zone
  type Usage = Slab.Usage
  type byte = SmallMem.byte

  const WORD := 0x1_0000_0000

  /** `p` is live and its bytes begin at `addr`. */
  ghost predicate Points(s: Slab.State, p: Ptr, addr: nat)
  {
    && Slab.LivePtr(s, p) && (p.Chunk? ==> s.zones[p.base].bytes >= 8)
    && addr == Slab.Start(s, p)
  }

  /** The page usage tells a block of pages from a chunk, and the address within the zone tells which chunk. */
  lemma DecodesBlock(s: Slab.State, b: nat, addr: nat)
    requires Slab.Inv(s) && Points(s, Slab.Block(b), addr)
    ensures addr / Slab.PAGE == b && b in s.owned && b in s.usage && s.usage[b] == Slab.Large(s.owned[b])
  {
    assert b in s.owned.Keys;
    assert Slab.Marked(s.usage, b, s.owned[b], true);
  }

  lemma DecodesChunk(s: Slab.State, b: nat, c: nat, addr: nat)
    requires Slab.Inv(s) && Points(s, Slab.Chunk(b, c), addr)
    ensures var page := addr / Slab.PAGE;
            && page in s.usage && s.usage[page].Small? && page - s.usage[page].off == b
    ensures var bytes := s.zones[b].bytes;
            && b * Slab.PAGE + Slab.FirstChunk(bytes) <= addr
            && (addr - b * Slab.PAGE - Slab.FirstChunk(bytes)) / bytes == c
  {
    Slab.UsageFindsZone(s, b, c, addr);
    WhichChunk(b * Slab.PAGE, Slab.FirstChunk(s.zones[b].bytes), c, s.zones[b].bytes, addr);
  }

  lemma WhichChunk(base: nat, off: nat, c: nat, bytes: nat, addr: nat)
    requires 0 < bytes && addr == base + off + c * bytes
    ensures base + off <= addr && (addr - base - off) / bytes == c
  {
    assert addr - base - off == c * bytes;
    TimesOver(c, bytes);
  }

  lemma TimesOver(c: nat, bytes: nat)
    requires 0 < bytes
    ensures c * bytes / bytes == c
  {
    var q := c * bytes / bytes;
    Slab.QuotientAtLeast(c * bytes, bytes, c);
    if c < q {
      Slab.TimesGrows(c + 1, q, bytes);
      assert false;
    }
  }

  lemma Decodes(s: Slab.State, p: Ptr, addr: nat)
    requires Slab.Inv(s) && Points(s, p, addr)
    ensures var page := addr / Slab.PAGE;
            && page in s.usage && (s.usage[page].Large? <==> p.Block?) && (s.usage[page].Small? <==> p.Chunk?)
            && (p.Block? ==> page == p.page && page in s.large && page in s.owned && s.usage[page].pages == s.owned[page])
            && (p.Chunk? ==>
                  && page - s.usage[page].off == p.base && p.base in s.zones && s.zones[p.base].bytes >= 8
                  && p.base * Slab.PAGE + Slab.FirstChunk(s.zones[p.base].bytes) <= addr
                  && (addr - p.base * Slab.PAGE - Slab.FirstChunk(s.zones[p.base].bytes)) / s.zones[p.base].bytes == p.index)
  {
    if p.Block? {
      DecodesBlock(s, p.page, addr);
    } else {
      DecodesChunk(s, p.base, p.index, addr);
    }
  }

  /** A wholly free zone is on its list, and its pages are in use. */
  lemma ListedZone(s: Slab.State, b: nat)
    requires Slab.Inv(s) && b in s.zones && s.zones[b].nfree == s.zones[b].nmax
    ensures s.zones[b].zone < Slab.NZONES == |s.lists| && b in s.lists[s.zones[b].zone] && Distinct(s.lists[s.zones[b].zone])
    ensures b in s.owned && s.owned[b] == s.zoneSize / Slab.PAGE > 0
    ensures PageAllocator.Canonical(s.runs) && PageAllocator.NoneFree(s.runs, b, s.owned[b])
  {
    assert Slab.ZoneFits(s, s.zones[b]);
    assert Slab.Available(s.zones, b, s.zones[b].zone);
  }

  /** Zones in use stay, with the chunk sizes they have. */
  ghost predicate SameSizes(zones: map<nat, Zone>, zones': map<nat, Zone>)
  {
    forall b :: b in zones ==> b in zones' && zones'[b].bytes == zones[b].bytes
  }

  lemma FromKeepsSizes(s: Slab.State, i: nat)
    requires Slab.Inv(s) && i < Slab.NZONES && s.lists[i] != []
    ensures SameSizes(s.zones, Slab.MallocFrom(s, i).s.zones)
  {
    assert s.lists[i][0] in s.lists[i];
  }

  lemma NewKeepsSizes(s: Slab.State, i: nat)
    requires Slab.Inv(s) && i < Slab.NZONES
    ensures SameSizes(s.zones, Slab.MallocNew(s, i).s.zones)
  {
    if s.parked != [] {
      assert s.parked[0] in Elems(s.parked) && s.parked[0] !in s.zones.Keys;
    } else if PageAllocator.Alloc(s.runs, Slab.ZonePages(s)).start.Some? {
      Slab.PagesTaken(s.runs, s.owned, Slab.ZonePages(s));
      assert PageAllocator.Alloc(s.runs, Slab.ZonePages(s)).start.value !in s.owned.Keys;
    }
  }

  lemma MallocKeepsSizes(s: Slab.State, size: nat)
    requires Slab.Inv(s) && size < WORD
    ensures SameSizes(s.zones, Slab.Malloc(s, size).s.zones)
  {
    if 0 < size < Slab.ZoneLimit(s.zoneSize) {
      Slab.TwoChunksFit(s.zoneSize, size);
      Slab.ZoneIndexFits(size);
      var i := Slab.ZoneIndex(size).zone;
      if s.lists[i] != [] {
        FromKeepsSizes(s, i);
      } else {
        NewKeepsSizes(s, i);
      }
    }
  }

  /** Allocation does not move anything. */
  lemma MallocKeeps(s: Slab.State, size: nat, p: Ptr, addr: nat)
    requires Slab.Inv(s) && size < WORD && Points(s, p, addr)
    ensures Points(Slab.Malloc(s, size).s, p, addr)
  {
    Slab.MallocLive(s, size);
    MallocKeepsSizes(s, size);
    SameStart(s, Slab.Malloc(s, size).s, p, addr);
  }

  lemma SameStart(s: Slab.State, r: Slab.State, p: Ptr, addr: nat)
    requires Points(s, p, addr) && Slab.LivePtr(r, p) && SameSizes(s.zones, r.zones)
    ensures Points(r, p, addr)
  {
  }

  /** Nor does a release, except what is released. */
  lemma ReleaseKeeps(s: Slab.State, p: Ptr, q: Ptr, addr: nat)
    requires Slab.Inv(s) && Slab.LivePtr(s, p) && Points(s, q, addr) && p != q
    ensures Points(Slab.Release(s, p), q, addr)
  {
    Slab.ReleaseLive(s, p);
  }

  lemma MoveFacts(s: Slab.State, p: Ptr, addr: nat, bytes: nat)
    requires Slab.Inv(s) && bytes < WORD && Points(s, p, addr)
    ensures Slab.Malloc(s, bytes).p != p && Points(Slab.Malloc(s, bytes).s, p, addr)
  {
    Slab.MallocLive(s, bytes);
    MallocKeeps(s, bytes, p, addr);
  }

  lemma StartsAt(s: Slab.State, p: Ptr)
    requires Slab.Inv(s) && Slab.LivePtr(s, p)
    ensures (p.Chunk? ==> p.base in s.zones && s.zones[p.base].bytes >= 8) && Points(s, p, Slab.Start(s, p))
  {
    if p.Chunk? {
      assert Slab.ZoneFits(s, s.zones[p.base]);
    }
  }

  // ---- bytes ----

  /** The byte at an address of the heap. */
  function At(bytes: map<nat, byte>, x: nat): (b: byte)
    ensures x in bytes ==> b == bytes[x]
  {
    if x in bytes then bytes[x] else 0
  }

  function Lesser(a: nat, b: nat): (r: nat)
    ensures r <= a && r <= b && (r == a || r == b)
  {
    if a < b then a else b
  }

  /** The bytes of a live pointer are the same before and after. */
  ghost predicate Kept(s: Slab.State, q: Ptr, was: map<nat, byte>, now: map<nat, byte>)
    requires Slab.Inv(s) && Slab.LivePtr(s, q)
  {
    StartsAt(s, q);
    Slab.LiveWithin(s, q);
    forall x :: Slab.Start(s, q) <= x < Slab.Start(s, q) + Slab.Length(s, q) ==> At(now, x) == At(was, x)
  }

  /** Everybody's bytes are. */
  ghost predicate AllKept(s: Slab.State, was: map<nat, byte>, now: map<nat, byte>)
    requires Slab.Inv(s)
  {
    forall q :: Slab.LivePtr(s, q) ==> Kept(s, q, was, now)
  }

  /** The first `len` bytes at one address were at the other before. */
  ghost predicate Copied(was: map<nat, byte>, now: map<nat, byte>, src: nat, dst: nat, len: nat)
  {
    forall x :: dst <= x < dst + len ==> At(now, x) == At(was, src + (x - dst))
  }

  /** Writing into what has just been allocated touches nothing that was live. */
  lemma NewPlaceApart(s: Slab.State, size: nat, was: map<nat, byte>, now: map<nat, byte>, dst: nat, len: nat)
    requires Slab.Inv(s) && size < WORD && Slab.Malloc(s, size).p != Slab.Null && len <= size
    requires Points(Slab.Malloc(s, size).s, Slab.Malloc(s, size).p, dst)
    requires forall x: nat :: !(dst <= x < dst + len) ==> At(now, x) == At(was, x)
    ensures AllKept(s, was, now)
  {
    forall q | Slab.LivePtr(s, q)
      ensures Kept(s, q, was, now)
    {
      StaysApart(s, size, q);
    }
  }

  lemma StaysApart(s: Slab.State, size: nat, q: Ptr)
    requires Slab.Inv(s) && size < WORD && Slab.LivePtr(s, q) && Slab.Malloc(s, size).p != Slab.Null
    ensures var r := Slab.Malloc(s, size);
            && Slab.Inv(r.s) && Slab.LivePtr(r.s, r.p) && SlabSizes.Covers(r.s, r.p, size)
            && (q.Chunk? ==> q.base in s.zones && s.zones[q.base].bytes >= 8) && (q.Block? ==> q.page in s.owned)
            && (r.p.Chunk? ==> r.p.base in r.s.zones && r.s.zones[r.p.base].bytes >= 8)
            && (Slab.Start(s, q) + Slab.Length(s, q) <= Slab.Start(r.s, r.p)
                || Slab.Start(r.s, r.p) + size <= Slab.Start(s, q))
  {
    var r := Slab.Malloc(s, size);
    Slab.MallocInv(s, size);
    Slab.MallocLive(s, size);
    SlabSizes.MallocCovers(s, size);
    SlabSizes.MallocKeepsLength(s, size, q);
    StartsAt(s, q);
    StartsAt(r.s, r.p);
    MallocKeeps(s, size, q, Slab.Start(s, q));
    Slab.LiveWithin(s, q);
    Slab.LiveDisjoint(r.s, q, r.p);
  }

  class Heap {
    const zoneSize: nat
    const pages: PageAllocator.Pages
    var usage: map<nat, Usage>
    var zones: map<nat, Zone>
    var zoneArray: seq<seq<nat>>
    var zoneFree: seq<nat>
    var zoneFreeCount: nat
    var bytes: map<nat, byte>
    ghost var owned: map<nat, nat>
    ghost var large: set<nat>

    ghost function Snapshot(): Slab.State
      reads this, pages
    {
      Slab.State(zoneSize, pages.list, owned, large, usage, zones, zoneArray, zoneFree)
    }

    ghost predicate Valid()
      reads this, pages
    {
      Slab.Inv(Snapshot()) && zoneFreeCount == |zoneFree|
    }

    /** The zone size follows from the heap's; the usage table takes the first pages. */
    constructor (npages: nat)
      requires 0 < npages
      ensures Valid() && fresh(pages) && Slab.Suits(zoneSize, npages) && Snapshot() == Slab.Fresh(zoneSize, npages)
    {
      var size := Slab.ChooseZoneSize(npages * Slab.PAGE);
      zoneSize := size;
      var all := new PageAllocator.Pages(npages);
      var table := all.AllocPages(Slab.TablePages(npages));
      pages := all;
      bytes := map[];
      usage, zones, zoneArray, zoneFree, zoneFreeCount := map[], map[], seq(Slab.NZONES, _ => []), [], 0;
      owned, large := map[], {};
    }

    /** The zone list for a request, and the size it is rounded up to. */
    static method ZoneIndex(n: nat) returns (zone: int, bytes: nat)
      requires n < 16384
      ensures Slab.Class(zone, bytes) == Slab.ZoneIndex(n)
    {
      if n < 128 {
        bytes := (n + 7) / 8 * 8;
        return bytes / 8 - 1, bytes;
      }
      if n < 256 {
        bytes := (n + 15) / 16 * 16;
        return bytes / 16 + 7, bytes;
      }
      if n < 8192 {
        if n < 512 {
          bytes := (n + 31) / 32 * 32;
          return bytes / 32 + 15, bytes;
        }
        if n < 1024 {
          bytes := (n + 63) / 64 * 64;
          return bytes / 64 + 23, bytes;
        }
        if n < 2048 {
          bytes := (n + 127) / 128 * 128;
          return bytes / 128 + 31, bytes;
        }
        if n < 4096 {
          bytes := (n + 255) / 256 * 256;
          return bytes / 256 + 39, bytes;
        }
        bytes := (n + 511) / 512 * 512;
        return bytes / 512 + 47, bytes;
      }
      bytes := (n + 1023) / 1024 * 1024;
      return bytes / 1024 + 55, bytes;
    }

    /** The pages of a zone are marked one after the other. */
    method MarkPages(b: nat, n: nat, zone: bool)
      modifies this`usage
      ensures usage == Slab.MarkPages(old(usage), b, n, zone)
    {
      var off := 0;
      while off < n
        invariant off <= n && usage == Slab.MarkPages(old(usage), b, off, zone)
      {
        usage := usage[b + off := if zone then Slab.Small(off) else Slab.Unused];
        off := off + 1;
      }
    }

    method MallocLarge(n: nat) returns (p: Ptr)
      requires Slab.Inv(Snapshot())
      modifies this`usage, this`owned, this`large, pages
      ensures Slab.Result(p, Snapshot()) == Slab.MallocLarge(old(Snapshot()), n)
    {
      PageAllocator.AllocFacts(pages.list, n);
      var b := pages.AllocPages(n);
      if b == PageAllocator.None {
        return Slab.Null;
      }
      usage := usage[b.value := Slab.Large(n)];
      owned, large := owned[b.value := n], large + {b.value};
      return Slab.Block(b.value);
    }

    /** A chunk of the first zone in the list; its header is updated field by field. */
    method MallocFrom(i: nat) returns (p: Ptr)
      requires Slab.Inv(Snapshot()) && i < Slab.NZONES && zoneArray[i] != []
      modifies this`zones, this`zoneArray
      ensures Slab.Result(p, Snapshot()) == Slab.MallocFrom(old(Snapshot()), i)
    {
      var b := zoneArray[i][0];
      assert b in zoneArray[i] && Slab.Available(zones, b, i);
      var z, chunk := UseChunk(zones[b]);
      if z.nfree == 0 {
        zoneArray := zoneArray[i := zoneArray[i][1..]];
      }
      zones := zones[b := z];
      return Slab.Chunk(b, chunk);
    }

    /** A chunk that was never used, or else the one freed last. */
    static method UseChunk(was: Zone) returns (z: Zone, chunk: nat)
      requires Slab.ZoneOk(was) && was.nfree > 0
      ensures z == Slab.TakeChunk(was) && chunk == Slab.NextChunk(was)
    {
      z := was.(nfree := was.nfree - 1);
      if z.uindex + 1 != z.nmax {
        z := z.(uindex := z.uindex + 1);
        chunk := z.uindex;
      } else {
        chunk := z.free[0];
        z := z.(free := z.free[1..]);
      }
    }

    /** A zone kept for later, or fresh pages, become a zone for list `i`. */
    method MallocNew(i: nat) returns (p: Ptr)
      requires Valid() && i < Slab.NZONES && Slab.MaxChunks(zoneSize, Slab.ChunkSize(i)) >= 2
      modifies this, pages
      ensures bytes == old(bytes)
      ensures Slab.Result(p, Snapshot()) == Slab.MallocNew(old(Snapshot()), i) && zoneFreeCount == |zoneFree|
    {
      if zoneFree != [] {
        var b := zoneFree[0];
        zoneFree := zoneFree[1..];
        zoneFreeCount := zoneFreeCount - 1;
        p := OpenZone(b, i);
        return p;
      }
      var b := ZonePages();
      if b == PageAllocator.None {
        return Slab.Null;
      }
      p := OpenZone(b.value, i);
    }

    /** Fresh pages for a zone, marked in the usage table. */
    method ZonePages() returns (b: Option<nat>)
      requires Slab.Inv(Snapshot())
      modifies this`usage, this`owned, pages
      ensures var s, n := old(Snapshot()), zoneSize / Slab.PAGE;
              var a := PageAllocator.Alloc(s.runs, n);
              && b == a.start
              && Snapshot() == if b == PageAllocator.None then s
                               else s.(runs := a.runs, owned := s.owned[b.value := n],
                                       usage := Slab.MarkPages(s.usage, b.value, n, true))
    {
      PageAllocator.AllocFacts(pages.list, zoneSize / Slab.PAGE);
      b := pages.AllocPages(zoneSize / Slab.PAGE);
      if b != PageAllocator.None {
        MarkPages(b.value, zoneSize / Slab.PAGE, true);
        owned := owned[b.value := zoneSize / Slab.PAGE];
      }
    }

    /** The header is set up, the first chunk handed out, and the zone put first on its list. */
    method OpenZone(b: nat, i: nat) returns (p: Ptr)
      requires i < Slab.NZONES == |zoneArray| && Slab.MaxChunks(zoneSize, Slab.ChunkSize(i)) >= 2
      modifies this`zones, this`zoneArray
      ensures Slab.Result(p, Snapshot()) == Slab.OpenZone(old(Snapshot()), b, i)
    {
      var bytes := Slab.ChunkSize(i);
      var nmax := Slab.MaxChunks(zoneSize, bytes);
      zones := zones[b := Slab.Zone(i, bytes, nmax, 0, nmax - 1, [])];
      zoneArray := zoneArray[i := [b] + zoneArray[i]];
      return Slab.Chunk(b, 0);
    }

    /** Where a pointer's bytes begin. */
    method Address(p: Ptr) returns (addr: nat)
      requires Valid() && Slab.LivePtr(Snapshot(), p)
      ensures Points(Snapshot(), p, addr)
    {
      StartsAt(Snapshot(), p);
      match p {
        case Chunk(b, c) =>
          var z := zones[b];
          Slab.TimesGrows(0, c, z.bytes);
          return b * Slab.PAGE + Slab.FirstChunk(z.bytes) + c * z.bytes;
        case Block(b) => return b * Slab.PAGE;
      }
    }

    method Malloc(size: nat) returns (ptr: Option<nat>, ghost p: Ptr)
      requires Valid() && size < WORD
      modifies this, pages
      ensures bytes == old(bytes)
      ensures Valid() && Slab.Result(p, Snapshot()) == Slab.Malloc(old(Snapshot()), size)
      ensures if ptr == PageAllocator.None then p == Slab.Null
              else Points(Snapshot(), p, ptr.value) && SlabSizes.Covers(Snapshot(), p, size)
    {
      Slab.MallocLive(Snapshot(), size);
      SlabSizes.MallocCovers(Snapshot(), size);
      var chunk := Grant(size);
      p := chunk;
      if chunk == Slab.Null {
        return PageAllocator.None, p;
      }
      var addr := Address(chunk);
      return PageAllocator.Some(addr), p;
    }

    /** Large requests take pages, others a chunk of a zone on the list for their size, or of a new zone. */
    method Grant(size: nat) returns (p: Ptr)
      requires Valid() && size < WORD
      modifies this, pages
      ensures bytes == old(bytes)
      ensures Slab.Result(p, Snapshot()) == Slab.Malloc(old(Snapshot()), size)
      ensures Valid()
    {
      ghost var s := Snapshot();
      if size == 0 {
        p := Slab.Null;
      } else if size >= Slab.ZoneLimit(zoneSize) {
        p := MallocLarge((size + Slab.PAGE - 1) % WORD / Slab.PAGE);
      } else {
        Slab.TwoChunksFit(zoneSize, size);
        Slab.ZoneIndexFits(size);
        var zone, bytes := ZoneIndex(size);
        if zoneArray[zone] != [] {
          p := MallocFrom(zone);
        } else {
          p := MallocNew(zone);
        }
      }
      Slab.MallocInv(s, size);
    }

    /** The usage of the pointer's page tells what it points to. */
    method Free(ptr: Option<nat>, ghost p: Ptr)
      requires Valid() && if ptr == PageAllocator.None then p == Slab.Null else Points(Snapshot(), p, ptr.value)
      modifies this, pages
      ensures bytes == old(bytes)
      ensures Valid() && Snapshot() == Slab.Release(old(Snapshot()), p)
    {
      Slab.ReleaseInv(Snapshot(), p);
      if ptr == PageAllocator.None {
        return;
      }
      var q := Lookup(ptr.value, p);
      match q {
        case Chunk(b, c) => FreeChunk(b, c);
        case Block(b) => FreeLarge(b);
      }
    }

    /** The usage of the address's page tells a block of pages from a chunk of the zone so many pages before. */
    method Lookup(addr: nat, ghost p: Ptr) returns (q: Ptr)
      requires Valid() && Points(Snapshot(), p, addr)
      ensures q == p
    {
      Decodes(Snapshot(), p, addr);
      var page := addr / Slab.PAGE;
      var kup := usage[page];
      if kup.Large? {
        return Slab.Block(page);
      }
      var b := page - kup.off;
      var bytes := zones[b].bytes;
      return Slab.Chunk(b, (addr - b * Slab.PAGE - Slab.FirstChunk(bytes)) / bytes);
    }

    method FreeLarge(b: nat)
      requires Slab.Inv(Snapshot()) && b in large
      modifies this`usage, this`owned, this`large, pages
      ensures b in old(owned) && Snapshot() == Slab.FreeLarge(old(Snapshot()), b)
    {
      assert b in owned.Keys && Slab.Marked(usage, b, owned[b], true);
      var n := usage[b].pages;
      usage := usage[b := Slab.Large(0)];
      pages.FreePages(b, n);
      owned, large := owned - {b}, large - {b};
    }

    /** The chunk joins the zone's free chunks. A zone that had none is listed again; one that is wholly free is
        taken out of use unless it is alone on its list. */
    method FreeChunk(b: nat, c: nat)
      requires Valid() && Slab.LivePtr(Snapshot(), Slab.Chunk(b, c))
      modifies this, pages
      ensures bytes == old(bytes)
      ensures Snapshot() == Slab.FreeChunk(old(Snapshot()), b, c) && zoneFreeCount == |zoneFree|
    {
      Slab.ReturnedInv(Snapshot(), b, c);
      GiveBack(b, c);
      var z := zones[b];
      if z.nfree == z.nmax && |zoneArray[z.zone]| > 1 {
        Retire(b);
      }
    }

    method GiveBack(b: nat, c: nat)
      requires b in zones && zones[b].zone < Slab.NZONES == |zoneArray|
      modifies this`zones, this`zoneArray
      ensures Snapshot() == Slab.Returned(old(Snapshot()), b, c)
    {
      var z := zones[b];
      z := z.(free := [c] + z.free);
      if z.nfree == 0 {
        zoneArray := zoneArray[z.zone := [b] + zoneArray[z.zone]];
      }
      zones := zones[b := z.(nfree := z.nfree + 1)];
    }

    /** The zone joins the free zones; when they become too many its pages are released. */
    method Retire(b: nat)
      requires Valid() && b in zones && zones[b].nfree == zones[b].nmax
      modifies this, pages
      ensures bytes == old(bytes)
      ensures b in old(owned) && Snapshot() == Slab.Retired(old(Snapshot()), b) && zoneFreeCount == |zoneFree|
    {
      var i := zones[b].zone;
      ListedZone(Snapshot(), b);
      Unlink(i, b);
      zones := zones - {b};
      zoneFree := [b] + zoneFree;
      zoneFreeCount := zoneFreeCount + 1;
      if zoneFreeCount > Slab.RELEASE_THRESH {
        zoneFree := zoneFree[1..];
        zoneFreeCount := zoneFreeCount - 1;
        MarkPages(b, zoneSize / Slab.PAGE, false);
        pages.FreePages(b, zoneSize / Slab.PAGE);
        owned := owned - {b};
      }
    }

    /** The walk along list `i` to zone `b`, which is taken out. */
    method Unlink(i: nat, b: nat)
      requires i < |zoneArray| && b in zoneArray[i] && Distinct(zoneArray[i])
      modifies this`zoneArray
      ensures zoneArray == old(zoneArray)[i := Without(old(zoneArray)[i], b)]
    {
      var k := 0;
      while zoneArray[i][k] != b
        invariant k < |zoneArray[i]| && b !in zoneArray[i][..k]
        decreases |zoneArray[i]| - k
      {
        k := k + 1;
      }
      WithoutAt(zoneArray[i], k);
      zoneArray := zoneArray[i := zoneArray[i][..k] + zoneArray[i][k + 1..]];
    }

    /** The `len` bytes from `src` on are copied to `dst`. */
    method Copy(dst: nat, src: nat, len: nat)
      requires dst + len <= src || src + len <= dst
      modifies this`bytes
      ensures Copied(old(bytes), bytes, src, dst, len)
      ensures forall x: nat :: !(dst <= x < dst + len) ==> At(bytes, x) == old(At(bytes, x))
    {
      var k := 0;
      while k < len
        invariant k <= len && Copied(old(bytes), bytes, src, dst, k)
        invariant forall x: nat :: !(dst <= x < dst + k) ==> At(bytes, x) == old(At(bytes, x))
      {
        ghost var before := bytes;
        assert At(bytes, src + k) == old(At(bytes, src + k));
        bytes := bytes[dst + k := At(bytes, src + k)];
        assert forall x: nat :: x != dst + k ==> At(bytes, x) == At(before, x);
        k := k + 1;
      }
    }

    /** A chunk stays when the size it is rounded up to stays; otherwise a new place is allocated first, and what
        old and new place have in common is copied. No live byte is lost. */
    method Realloc(ptr: Option<nat>, size: nat, ghost p: Ptr) returns (nptr: Option<nat>, ghost np: Ptr)
      requires Valid() && size < WORD && if ptr == PageAllocator.None then p == Slab.Null else Points(Snapshot(), p, ptr.value)
      modifies this, pages
      ensures Valid() && Slab.Result(np, Snapshot()) == Slab.Realloc(old(Snapshot()), p, size)
      ensures if nptr == PageAllocator.None then np == Slab.Null
              else Points(Snapshot(), np, nptr.value) && SlabSizes.Covers(Snapshot(), np, size)
      ensures AllKept(old(Snapshot()), old(bytes), bytes)
      ensures p != Slab.Null && nptr != PageAllocator.None ==>
                && (p.Block? ==> p.page in old(Snapshot()).owned)
                && Copied(old(bytes), bytes, ptr.value, nptr.value, Lesser(size, Slab.Length(old(Snapshot()), p)))
    {
      if size > 0 {
        SlabSizes.ReallocCovers(Snapshot(), p, size);
      }
      if ptr == PageAllocator.None {
        nptr, np := Malloc(size);
        return nptr, np;
      }
      if size == 0 {
        Free(ptr, p);
        return PageAllocator.None, Slab.Null;
      }
      Decodes(Snapshot(), p, ptr.value);
      var q := Lookup(ptr.value, p);
      var rounded, oldSize := size, 0;
      if q.Chunk? {
        oldSize := zones[q.base].bytes;
        if size < 16384 {
          var zone;
          zone, rounded := ZoneIndex(size);
          Slab.ZoneIndexFits(size);
        }
        if oldSize == rounded {
          return ptr, p;
        }
      } else {
        oldSize := usage[q.page].pages * Slab.PAGE;
      }
      Slab.ResizedBelowWord(size);
      nptr, np := Move(ptr, rounded, oldSize, p);
    }

    /** The new place is allocated and filled, then the old one released. */
    method Move(ptr: Option<nat>, size: nat, oldSize: nat, ghost p: Ptr) returns (nptr: Option<nat>, ghost np: Ptr)
      requires Valid() && size < WORD && ptr != PageAllocator.None && Points(Snapshot(), p, ptr.value)
      requires (p.Block? ==> p.page in owned) && oldSize == Slab.Length(Snapshot(), p)
      modifies this, pages
      ensures Valid() && Slab.Result(np, Snapshot()) == Slab.Moved(old(Snapshot()), p, size)
      ensures if nptr == PageAllocator.None then np == Slab.Null else Points(Snapshot(), np, nptr.value)
      ensures AllKept(old(Snapshot()), old(bytes), bytes)
      ensures nptr != PageAllocator.None ==> Copied(old(bytes), bytes, ptr.value, nptr.value, Lesser(size, oldSize))
    {
      MoveFacts(Snapshot(), p, ptr.value, size);
      nptr, np := CopyOut(ptr.value, size, Lesser(size, oldSize), p);
      if nptr != PageAllocator.None {
        ReleaseKeeps(Snapshot(), p, np, nptr.value);
        Free(ptr, p);
      }
    }

    /** A new place of `size` bytes is filled while the old one is still there. */
    method CopyOut(src: nat, size: nat, len: nat, ghost p: Ptr) returns (nptr: Option<nat>, ghost np: Ptr)
      requires Valid() && len <= size < WORD && Points(Snapshot(), p, src)
      requires (p.Block? ==> p.page in owned) && len <= Slab.Length(Snapshot(), p)
      modifies this, pages
      ensures Valid() && Slab.Result(np, Snapshot()) == Slab.Malloc(old(Snapshot()), size)
      ensures if nptr == PageAllocator.None then np == Slab.Null else Points(Snapshot(), np, nptr.value)
      ensures AllKept(old(Snapshot()), old(bytes), bytes)
      ensures nptr != PageAllocator.None ==> Copied(old(bytes), bytes, src, nptr.value, len)
    {
      ghost var s, was := Snapshot(), bytes;
      nptr, np := Malloc(size);
      if nptr != PageAllocator.None {
        StaysApart(s, size, p);
        Copy(nptr.value, src, len);
        NewPlaceApart(s, size, was, bytes, nptr.value, len);
      }
    }
  }
}
