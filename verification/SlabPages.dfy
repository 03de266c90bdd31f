/** Where the pages of the slab allocator's heap are (os/slab.c): in the usage table, free, or in use, over any
    run of calls. */
module SlabPages {
  import opened PageAllocator
  import opened Slab

  ghost predicate InUse(owned: map<nat, nat>, p: int)
  {
    exists b :: b in owned && b <= p < b + owned[b]
  }

  /** Page `p` of a heap of `n` pages, `m` of them in the usage table: it is free or in use, never both. */
  ghost predicate InPlace(runs: seq<PageAllocator.Run>, owned: map<nat, nat>, m: nat, n: nat, p: nat)
  {
    if m <= p < n then FreePage(runs, p) != InUse(owned, p) else !FreePage(runs, p) && !InUse(owned, p)
  }

  ghost predicate Accounted(runs: seq<PageAllocator.Run>, owned: map<nat, nat>, m: nat, n: nat)
  {
    forall p: nat :: InPlace(runs, owned, m, n, p)
  }

  lemma TakenAccounted(runs: seq<PageAllocator.Run>, owned: map<nat, nat>, k: nat, m: nat, n: nat)
    requires PagesOwned(runs, owned) && Accounted(runs, owned, m, n) && Alloc(runs, k).start.Some?
    ensures Accounted(Alloc(runs, k).runs, owned[Alloc(runs, k).start.value := k], m, n)
  {
    var a := Alloc(runs, k);
    var b := a.start.value;
    AllocFacts(runs, k);
    PagesTaken(runs, owned, k);
    var now := owned[b := k];
    forall p: nat
      ensures InPlace(a.runs, now, m, n, p)
    {
      assert InPlace(runs, owned, m, n, p);
      InUseMore(owned, b, k, p);
    }
  }

  lemma InUseMore(owned: map<nat, nat>, b: nat, k: nat, p: int)
    requires b !in owned
    ensures InUse(owned[b := k], p) <==> InUse(owned, p) || b <= p < b + k
  {
    var now := owned[b := k];
    if InUse(owned, p) {
      var c :| c in owned && c <= p < c + owned[c];
      assert now[c] == owned[c];
    }
    if b <= p < b + k {
      assert now[b] == k;
    }
  }

  lemma GivenAccounted(runs: seq<PageAllocator.Run>, owned: map<nat, nat>, b: nat, m: nat, n: nat)
    requires PagesOwned(runs, owned) && Accounted(runs, owned, m, n) && b in owned
    ensures Accounted(PageAllocator.Free(runs, b, owned[b]), owned - {b}, m, n)
  {
    var r, now := PageAllocator.Free(runs, b, owned[b]), owned - {b};
    FreeFacts(runs, b, owned[b]);
    forall p: nat
      ensures InPlace(r, now, m, n, p)
    {
      assert InPlace(runs, owned, m, n, p);
      InUseLess(owned, b, p);
    }
  }

  lemma InUseLess(owned: map<nat, nat>, b: nat, p: int)
    requires b in owned && forall c :: c in owned && c != b ==> Separate(b, owned[b], c, owned[c])
    ensures InUse(owned, p) <==> InUse(owned - {b}, p) || b <= p < b + owned[b]
    ensures b <= p < b + owned[b] ==> !InUse(owned - {b}, p)
  {
    var now := owned - {b};
    if InUse(owned, p) && !(b <= p < b + owned[b]) {
      var c :| c in owned && c <= p < c + owned[c];
      assert c in now && now[c] == owned[c];
    }
    if InUse(now, p) {
      var c :| c in now && c <= p < c + now[c];
      assert c in owned;
    }
  }

  ghost predicate AllInPlace(s: State, m: nat, n: nat)
  {
    Accounted(s.runs, s.owned, m, n)
  }

  lemma MallocAccounted(s: State, size: nat, m: nat, n: nat)
    requires Inv(s) && AllInPlace(s, m, n) && size < 0x1_0000_0000
    ensures AllInPlace(Malloc(s, size).s, m, n)
  {
    if size >= ZoneLimit(s.zoneSize) {
      var k := (size + PAGE - 1) % 0x1_0000_0000 / PAGE;
      if Alloc(s.runs, k).start.Some? {
        TakenAccounted(s.runs, s.owned, k, m, n);
      }
    } else if size > 0 {
      TwoChunksFit(s.zoneSize, size);
      ZoneIndexFits(size);
      if s.lists[ZoneIndex(size).zone] == [] && s.parked == [] && Alloc(s.runs, ZonePages(s)).start.Some? {
        TakenAccounted(s.runs, s.owned, ZonePages(s), m, n);
      }
    }
  }

  lemma RetiredAccounted(s: State, b: nat, m: nat, n: nat)
    requires Inv(s) && AllInPlace(s, m, n) && b in s.zones && b in s.owned
    ensures s.zones[b].zone < NZONES == |s.lists| && AllInPlace(Retired(s, b), m, n)
  {
    assert ZoneFits(s, s.zones[b]);
    if |s.parked| >= RELEASE_THRESH {
      GivenAccounted(s.runs, s.owned, b, m, n);
    }
  }

  lemma ReleaseAccounted(s: State, p: Ptr, m: nat, n: nat)
    requires Inv(s) && AllInPlace(s, m, n) && (p == Null || LivePtr(s, p))
    ensures AllInPlace(Release(s, p), m, n)
  {
    match p {
      case Null =>
      case Chunk(b, c) =>
        ReturnedInv(s, b, c);
        var r := Returned(s, b, c);
        assert b in s.zones.Keys && b in s.owned.Keys;
        if r.zones[b].nfree == r.zones[b].nmax && |r.lists[r.zones[b].zone]| > 1 {
          RetiredAccounted(r, b, m, n);
        }
      case Block(b) =>
        assert b in s.owned.Keys;
        GivenAccounted(s.runs, s.owned, b, m, n);
    }
  }

  lemma MovedAccounted(s: State, p: Ptr, bytes: nat, m: nat, n: nat)
    requires Inv(s) && AllInPlace(s, m, n) && bytes < 0x1_0000_0000 && LivePtr(s, p)
    ensures AllInPlace(Moved(s, p, bytes).s, m, n)
  {
    MallocInv(s, bytes);
    MallocLive(s, bytes);
    MallocAccounted(s, bytes, m, n);
    var r := Malloc(s, bytes);
    if r.p != Null {
      ReleaseAccounted(r.s, p, m, n);
    }
  }

  lemma ReallocAccounted(s: State, p: Ptr, size: nat, m: nat, n: nat)
    requires Inv(s) && AllInPlace(s, m, n) && size < 0x1_0000_0000 && (p == Null || LivePtr(s, p))
    ensures AllInPlace(Realloc(s, p, size).s, m, n)
  {
    if p == Null {
      MallocAccounted(s, size, m, n);
    } else if size == 0 {
      ReleaseAccounted(s, p, m, n);
    } else {
      var bytes := if p.Block? || size >= 16384 then size else ZoneIndex(size).bytes;
      if !(p.Chunk? && s.zones[p.base].bytes == bytes) {
        ResizedBelowWord(size);
        MovedAccounted(s, p, bytes, m, n);
      }
    }
  }

  lemma StepAccounted(s: State, e: Call, m: nat, n: nat)
    requires Inv(s) && AllInPlace(s, m, n)
    ensures AllInPlace(Step(s, e), m, n)
  {
    match e {
      case Get(size) =>
        if size < 0x1_0000_0000 {
          MallocAccounted(s, size, m, n);
        }
      case Put(p) =>
        if LivePtr(s, p) {
          ReleaseAccounted(s, p, m, n);
        }
      case Resize(p, size) =>
        if size < 0x1_0000_0000 && (p == Null || LivePtr(s, p)) {
          ReallocAccounted(s, p, size, m, n);
        }
    }
  }

  lemma {:induction false} RunAccounted(s: State, calls: seq<Call>, m: nat, n: nat)
    requires Inv(s) && AllInPlace(s, m, n)
    ensures AllInPlace(Slab.Run(s, calls), m, n)
    decreases |calls|
  {
    if calls != [] {
      StepAccounted(s, calls[0], m, n);
      RunAccounted(Step(s, calls[0]), calls[1..], m, n);
    }
  }

  /** After any run of calls on a heap of `npages` pages every page behind the usage table is free or in use by
      exactly one zone or block, and no other page is either. */
  lemma PagesConserved(zoneSize: nat, npages: nat, calls: seq<Call>)
    requires ZoneSize(zoneSize) && 0 < npages
    ensures AllInPlace(Slab.Run(Fresh(zoneSize, npages), calls), TablePages(npages), npages)
  {
    var all, m, s := [PageAllocator.Run(0, npages)], TablePages(npages), Fresh(zoneSize, npages);
    AllocFacts(all, m);
    forall p: nat
      ensures InPlace(s.runs, s.owned, m, npages, p)
    {
      assert FreePage(all, p) <==> FreeIn(all[0], p);
      FreshTaken(npages, m);
    }
    RunAccounted(s, calls, m, npages);
  }

  lemma FreshTaken(npages: nat, m: nat)
    requires 0 < m <= npages
    ensures Alloc([PageAllocator.Run(0, npages)], m).start == Some(0)
  {
  }
}
