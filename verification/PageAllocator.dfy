/** The page allocator (os/slab.c): the address-ordered list of runs of free pages. Pages are numbered from
    the start of the heap. */
module PageAllocator {

  datatype Run = Run(start: nat, count: nat)

  datatype Option<T> = None | Some(value: T)

  predicate FreeIn(r: Run, p: int) { r.start <= p < r.start + r.count }

  ghost predicate FreePage(rs: seq<Run>, p: int)
  {
    exists i :: 0 <= i < |rs| && FreeIn(rs[i], p)
  }

  /** Some used page lies between one run and the next, and no run is empty. */
  ghost predicate Gap(rs: seq<Run>, i: nat)
    requires i + 1 < |rs|
  {
    rs[i].start + rs[i].count < rs[i + 1].start
  }

  /** The list is in order, and its runs are not empty and not adjacent. */
  ghost predicate Canonical(rs: seq<Run>)
  {
    (forall i :: 0 <= i < |rs| ==> rs[i].count > 0) && forall i :: 0 <= i < |rs| - 1 ==> Gap(rs, i)
  }

  lemma CanonicalTail(rs: seq<Run>)
    requires Canonical(rs) && rs != []
    ensures Canonical(rs[1..]) && rs[0].count > 0
    ensures forall p :: FreePage(rs, p) <==> FreeIn(rs[0], p) || FreePage(rs[1..], p)
  {
    var rest := rs[1..];
    forall i | 0 <= i < |rest| - 1
      ensures Gap(rest, i)
    {
      assert Gap(rs, i + 1);
    }
    forall p
      ensures FreePage(rs, p) <==> FreeIn(rs[0], p) || FreePage(rest, p)
    {
      if FreePage(rest, p) {
        var i :| 0 <= i < |rest| && FreeIn(rest[i], p);
        assert FreeIn(rs[i + 1], p);
      }
      if FreePage(rs, p) {
        var i :| 0 <= i < |rs| && FreeIn(rs[i], p);
        assert 0 < i ==> FreeIn(rest[i - 1], p);
      }
    }
  }

  /** Everything free in the tail lies behind the first run and its gap. */
  lemma {:induction false} TailBehind(rs: seq<Run>)
    requires Canonical(rs) && rs != []
    ensures forall p :: FreePage(rs[1..], p) ==> rs[0].start + rs[0].count < p
    decreases |rs|
  {
    if |rs| > 1 {
      var rest := rs[1..];
      assert Gap(rs, 0);
      CanonicalTail(rs);
      CanonicalTail(rest);
      TailBehind(rest);
    }
  }

  /** Putting a run in front of a list that begins later, with a gap, keeps the list canonical. */
  lemma Cons(r: Run, rs: seq<Run>)
    requires Canonical(rs) && r.count > 0 && (rs != [] ==> r.start + r.count < rs[0].start)
    ensures Canonical([r] + rs)
    ensures forall p :: FreePage([r] + rs, p) <==> FreeIn(r, p) || FreePage(rs, p)
  {
    var all := [r] + rs;
    forall i | 0 <= i < |all| - 1
      ensures Gap(all, i)
    {
      assert 0 < i ==> Gap(rs, i - 1);
    }
    assert all[1..] == rs;
    CanonicalTail(all);
  }

  /** The canonical list is determined by the free pages: it is the list of the maximal free runs. */
  lemma {:induction false} CanonicalIsUnique(a: seq<Run>, b: seq<Run>)
    requires Canonical(a) && Canonical(b) && forall p :: FreePage(a, p) <==> FreePage(b, p)
    ensures a == b
    decreases |a|
  {
    if a == [] {
      EmptyOnlyFree(a, b);
    } else if b == [] {
      EmptyOnlyFree(b, a);
    } else {
      CanonicalTail(a);
      CanonicalTail(b);
      TailBehind(a);
      TailBehind(b);
      SameFirst(a, b);
      forall p
        ensures FreePage(a[1..], p) <==> FreePage(b[1..], p)
      {
        assert FreePage(a, p) <==> FreePage(b, p);
      }
      CanonicalIsUnique(a[1..], b[1..]);
    }
  }

  lemma EmptyOnlyFree(a: seq<Run>, b: seq<Run>)
    requires Canonical(b) && a == [] && forall p :: FreePage(a, p) <==> FreePage(b, p)
    ensures b == []
  {
    if b != [] {
      assert FreeIn(b[0], b[0].start);
      assert FreePage(b, b[0].start);
    }
  }

  lemma SameFirst(a: seq<Run>, b: seq<Run>)
    requires a != [] && b != [] && a[0].count > 0 && b[0].count > 0
    requires forall p :: FreePage(a, p) <==> FreeIn(a[0], p) || FreePage(a[1..], p)
    requires forall p :: FreePage(b, p) <==> FreeIn(b[0], p) || FreePage(b[1..], p)
    requires forall p :: FreePage(a[1..], p) ==> a[0].start + a[0].count < p
    requires forall p :: FreePage(b[1..], p) ==> b[0].start + b[0].count < p
    requires forall p :: FreePage(a, p) <==> FreePage(b, p)
    ensures a[0] == b[0]
  {
    assert FreePage(a, a[0].start) && FreePage(b, b[0].start);
    assert a[0].start == b[0].start;
    assert !FreePage(a, a[0].start + a[0].count) && !FreePage(b, b[0].start + b[0].count);
    assert FreePage(a, a[0].start + a[0].count - 1) && FreePage(b, b[0].start + b[0].count - 1);
  }

  // ---- allocation ----

  datatype Allocation = Allocation(start: Option<nat>, runs: seq<Run>)

  /** The first run that is large enough gives its first pages. */
  function Alloc(rs: seq<Run>, n: nat): Allocation
  {
    if n == 0 || rs == [] then Allocation(None, rs)
    else if rs[0].count > n then
      Allocation(Some(rs[0].start), [Run(rs[0].start + n, rs[0].count - n)] + rs[1..])
    else if rs[0].count == n then Allocation(Some(rs[0].start), rs[1..])
    else
      var a := Alloc(rs[1..], n);
      Allocation(a.start, [rs[0]] + a.runs)
  }

  ghost predicate AllFree(rs: seq<Run>, b: nat, n: nat)
  {
    forall p :: b <= p < b + n ==> FreePage(rs, p)
  }

  /** Consecutive free pages lie in one run. */
  lemma InOneRun(rs: seq<Run>, b: nat, n: nat)
    requires Canonical(rs) && rs != [] && 0 < n && AllFree(rs, b, n)
    ensures (rs[0].start <= b && b + n <= rs[0].start + rs[0].count) || AllFree(rs[1..], b, n)
  {
    CanonicalTail(rs);
    TailBehind(rs);
    assert FreePage(rs, b);
    var end := rs[0].start + rs[0].count;
    assert !FreePage(rs, end);
    if b < end {
      assert FreePage(rs, if b + n > end then end else b);
    } else {
      forall p | b <= p < b + n
        ensures FreePage(rs[1..], p)
      {
        assert FreePage(rs, p);
      }
    }
  }

  /** Allocation keeps the list canonical, takes exactly the pages it returns, and fails exactly when there are
      no `n` consecutive free pages; what it returns is the lowest place where there are. */
  lemma {:induction false} AllocFacts(rs: seq<Run>, n: nat)
    requires Canonical(rs)
    ensures var a := Alloc(rs, n);
            && Canonical(a.runs)
            && (a.start == None ==> a.runs == rs && forall b: nat :: n > 0 ==> !AllFree(rs, b, n))
            && (a.start.Some? ==>
                 && 0 < n && AllFree(rs, a.start.value, n)
                 && (forall b: nat :: AllFree(rs, b, n) ==> a.start.value <= b)
                 && (forall p :: FreePage(a.runs, p) <==> FreePage(rs, p) && !(a.start.value <= p < a.start.value + n))
                 && (a.runs != [] ==> rs != [] && rs[0].start <= a.runs[0].start))
    decreases |rs|
  {
    if n > 0 {
      if rs == [] {
        forall b: nat
          ensures !AllFree(rs, b, n)
        {
          assert !FreePage(rs, b);
        }
      } else {
        CanonicalTail(rs);
        TailBehind(rs);
        if rs[0].count >= n {
          TakeFirst(rs, n);
        } else {
          AllocFacts(rs[1..], n);
          TakeLater(rs, n, Alloc(rs[1..], n));
        }
      }
    }
  }

  lemma TakeFirst(rs: seq<Run>, n: nat)
    requires Canonical(rs) && rs != [] && 0 < n <= rs[0].count
    ensures var a, s := Alloc(rs, n), rs[0].start;
            && a.start == Some(s) && Canonical(a.runs) && AllFree(rs, s, n)
            && (forall b: nat :: AllFree(rs, b, n) ==> s <= b)
            && (forall p :: FreePage(a.runs, p) <==> FreePage(rs, p) && !(s <= p < s + n))
            && (a.runs != [] ==> s <= a.runs[0].start)
  {
    var s := rs[0].start;
    CanonicalTail(rs);
    TailBehind(rs);
    assert |rs| > 1 ==> Gap(rs, 0);
    if rs[0].count > n {
      Cons(Run(s + n, rs[0].count - n), rs[1..]);
    }
    forall b: nat | AllFree(rs, b, n)
      ensures s <= b
    {
      assert FreePage(rs, b);
    }
  }

  lemma TakeLater(rs: seq<Run>, n: nat, a: Allocation)
    requires Canonical(rs) && rs != [] && rs[0].count < n && a == Alloc(rs[1..], n) && Canonical(a.runs)
    requires a.start == None ==> a.runs == rs[1..] && forall b: nat :: !AllFree(rs[1..], b, n)
    requires a.start.Some? ==>
               && AllFree(rs[1..], a.start.value, n)
               && (forall b: nat :: AllFree(rs[1..], b, n) ==> a.start.value <= b)
               && (forall p :: FreePage(a.runs, p) <==> FreePage(rs[1..], p) && !(a.start.value <= p < a.start.value + n))
               && (a.runs != [] ==> |rs| > 1 && rs[1].start <= a.runs[0].start)
    ensures var r := Alloc(rs, n);
            && Canonical(r.runs)
            && (r.start == None ==> r.runs == rs && forall b: nat :: !AllFree(rs, b, n))
            && (r.start.Some? ==>
                 && AllFree(rs, r.start.value, n)
                 && (forall b: nat :: AllFree(rs, b, n) ==> r.start.value <= b)
                 && (forall p :: FreePage(r.runs, p) <==> FreePage(rs, p) && !(r.start.value <= p < r.start.value + n))
                 && rs[0].start <= r.runs[0].start)
  {
    CanonicalTail(rs);
    TailBehind(rs);
    assert |rs| > 1 ==> Gap(rs, 0);
    Cons(rs[0], a.runs);
    forall b: nat | AllFree(rs, b, n)
      ensures AllFree(rs[1..], b, n)
    {
      InOneRun(rs, b, n);
    }
    if a.start.Some? {
      var s := a.start.value;
      assert FreePage(rs[1..], s);
      forall p | s <= p < s + n
        ensures FreePage(rs, p) && !FreeIn(rs[0], p)
      {
        assert FreePage(rs[1..], p);
      }
    } else {
      assert [rs[0]] + rs[1..] == rs;
    }
  }

  // ---- release ----

  /** The pages join the run before them, the run behind them, both, or stand alone. */
  function Free(rs: seq<Run>, s: nat, n: nat): seq<Run>
  {
    if rs == [] then [Run(s, n)]
    else
      var b := rs[0];
      if b.start + b.count == s then
        if |rs| > 1 && s + n == rs[1].start then [Run(b.start, b.count + n + rs[1].count)] + rs[2..]
        else [Run(b.start, b.count + n)] + rs[1..]
      else if b.start == s + n then [Run(s, n + b.count)] + rs[1..]
      else if b.start > s + n then [Run(s, n)] + rs
      else [b] + Free(rs[1..], s, n)
  }

  ghost predicate NoneFree(rs: seq<Run>, s: nat, n: nat)
  {
    forall p :: s <= p < s + n ==> !FreePage(rs, p)
  }

  /** Releasing pages keeps the list canonical and frees exactly those pages. */
  lemma {:induction false} FreeFacts(rs: seq<Run>, s: nat, n: nat)
    requires Canonical(rs) && 0 < n && NoneFree(rs, s, n)
    ensures var r := Free(rs, s, n);
            && Canonical(r) && r != []
            && r[0].start == (if rs == [] || s < rs[0].start then s else rs[0].start)
            && forall p :: FreePage(r, p) <==> FreePage(rs, p) || s <= p < s + n
    decreases |rs|
  {
    if rs == [] {
      Cons(Run(s, n), []);
      assert [Run(s, n)] + [] == [Run(s, n)];
    } else {
      CanonicalTail(rs);
      TailBehind(rs);
      var b := rs[0];
      assert FreePage(rs, b.start) by { assert FreeIn(b, b.start); }
      assert b.start <= s ==> !FreeIn(b, s);
      if b.start + b.count == s {
        JoinBefore(rs, s, n);
      } else if b.start == s + n {
        assert |rs| > 1 ==> Gap(rs, 0);
        Cons(Run(s, n + b.count), rs[1..]);
      } else if b.start > s + n {
        Cons(Run(s, n), rs);
      } else {
        FreeLater(rs, s, n);
      }
    }
  }

  lemma FreeLater(rs: seq<Run>, s: nat, n: nat)
    requires Canonical(rs) && rs != [] && 0 < n && NoneFree(rs, s, n) && rs[0].start + rs[0].count < s
    ensures var r := Free(rs, s, n);
            && Canonical(r) && r != [] && r[0].start == rs[0].start
            && forall p :: FreePage(r, p) <==> FreePage(rs, p) || s <= p < s + n
    decreases |rs|, 0
  {
    CanonicalTail(rs);
    assert |rs| > 1 ==> Gap(rs, 0);
    forall p | s <= p < s + n
      ensures !FreePage(rs[1..], p)
    {
      assert !FreePage(rs, p);
    }
    FreeFacts(rs[1..], s, n);
    Cons(rs[0], Free(rs[1..], s, n));
  }

  lemma JoinBefore(rs: seq<Run>, s: nat, n: nat)
    requires Canonical(rs) && rs != [] && 0 < n && NoneFree(rs, s, n) && rs[0].start + rs[0].count == s
    ensures var r := Free(rs, s, n);
            && Canonical(r) && r != [] && r[0].start == rs[0].start
            && forall p :: FreePage(r, p) <==> FreePage(rs, p) || s <= p < s + n
  {
    var b := rs[0];
    CanonicalTail(rs);
    if |rs| > 1 {
      assert Gap(rs, 0);
      assert FreeIn(rs[1], rs[1].start) && FreePage(rs, rs[1].start);
      if s + n == rs[1].start {
        JoinBoth(rs, n);
      } else {
        Cons(Run(b.start, b.count + n), rs[1..]);
      }
    } else {
      Cons(Run(b.start, b.count + n), rs[1..]);
    }
  }

  lemma JoinBoth(rs: seq<Run>, n: nat)
    requires Canonical(rs) && |rs| > 1 && 0 < n && rs[0].start + rs[0].count + n == rs[1].start
    ensures var r := [Run(rs[0].start, rs[0].count + n + rs[1].count)] + rs[2..];
            && Canonical(r)
            && forall p :: FreePage(r, p) <==> FreePage(rs, p) || rs[0].start + rs[0].count <= p < rs[1].start
  {
    var rest := rs[1..];
    assert rest[1..] == rs[2..] && rest[0] == rs[1];
    CanonicalTail(rs);
    CanonicalTail(rest);
    assert |rs| > 2 ==> Gap(rs, 1);
    Cons(Run(rs[0].start, rs[0].count + n + rs[1].count), rs[2..]);
  }

  // ---- the page list in place ----

  lemma Shift(rs: seq<Run>, i: nat, more: seq<Run>)
    requires i < |rs|
    ensures rs[..i] + ([rs[i]] + more) == rs[..i + 1] + more
    ensures rs[i..][0] == rs[i] && rs[i..][1..] == rs[i + 1..]
    ensures i + 1 < |rs| ==> rs[i..][1] == rs[i + 1] && rs[i..][2..] == rs[i + 2..]
  {
  }

  /** What a walk that has come to run `i` does there. */
  lemma AllocStep(rs: seq<Run>, i: nat, n: nat)
    requires i < |rs| && n > 0
    ensures var a, r := Alloc(rs[i..], n), rs[i];
            && (r.count > n ==> a == Allocation(Some(r.start), [Run(r.start + n, r.count - n)] + rs[i + 1..]))
            && (r.count == n ==> a == Allocation(Some(r.start), rs[i + 1..]))
            && (r.count < n ==>
                 a.start == Alloc(rs[i + 1..], n).start && rs[..i] + a.runs == rs[..i + 1] + Alloc(rs[i + 1..], n).runs)
  {
    Shift(rs, i, Alloc(rs[i + 1..], n).runs);
  }

  /** Run `b` lies before the pages and does not touch them. */
  predicate PassedBy(b: Run, s: nat, n: nat)
  {
    b.start + b.count != s && b.start < s + n
  }

  lemma FreeStep(rs: seq<Run>, i: nat, s: nat, n: nat)
    requires i < |rs| && PassedBy(rs[i], s, n)
    ensures rs[..i] + Free(rs[i..], s, n) == rs[..i + 1] + Free(rs[i + 1..], s, n)
  {
    Shift(rs, i, Free(rs[i + 1..], s, n));
  }

  lemma FreeHere(rs: seq<Run>, i: nat, s: nat, n: nat)
    requires i < |rs| && !PassedBy(rs[i], s, n)
    ensures var f, b := Free(rs[i..], s, n), rs[i];
            if b.start + b.count == s then
              if i + 1 < |rs| && s + n == rs[i + 1].start then f == [Run(b.start, b.count + n + rs[i + 1].count)] + rs[i + 2..]
              else f == [Run(b.start, b.count + n)] + rs[i + 1..]
            else if b.start == s + n then f == [Run(s, n + b.count)] + rs[i + 1..]
            else f == [Run(s, n)] + rs[i..]
  {
    Shift(rs, i, []);
  }

  class Pages {
    var list: seq<Run>

    /** All pages are free. */
    constructor (npages: nat)
      requires 0 < npages
      ensures Canonical(list) && list == [Run(0, npages)]
    {
      list := [Run(0, npages)];
    }

    /** Takes the lowest run of `n` free pages, or reports that there is none. */
    method AllocPages(n: nat) returns (b: Option<nat>)
      requires Canonical(list)
      modifies this
      ensures Canonical(list) && b == Alloc(old(list), n).start && list == Alloc(old(list), n).runs
    {
      AllocFacts(list, n);
      b := TakeRun(n);
    }

    /** The walk to the first run that is large enough. */
    method TakeRun(n: nat) returns (b: Option<nat>)
      modifies this
      ensures b == Alloc(old(list), n).start && list == Alloc(old(list), n).runs
    {
      if n == 0 {
        return None;
      }
      var i := 0;
      while i < |list| && list[i].count < n
        invariant i <= |list| && list == old(list)
        invariant Alloc(list, n) == Allocation(Alloc(list[i..], n).start, list[..i] + Alloc(list[i..], n).runs)
      {
        AllocStep(list, i, n);
        i := i + 1;
      }
      if i == |list| {
        return None;
      }
      var r := list[i];
      AllocStep(list, i, n);
      list := list[..i] + ((if r.count > n then [Run(r.start + n, r.count - n)] else []) + list[i + 1..]);
      return Some(r.start);
    }

    /** Gives `n` pages from page `s` on back. */
    method FreePages(s: nat, n: nat)
      requires Canonical(list) && 0 < n && NoneFree(list, s, n)
      modifies this
      ensures Canonical(list) && list == Free(old(list), s, n)
    {
      FreeFacts(list, s, n);
      PutRun(s, n);
    }

    /** The walk to the run the pages join, or to the place where they stand alone. */
    method PutRun(s: nat, n: nat)
      modifies this
      ensures list == Free(old(list), s, n)
    {
      var i := 0;
      while i < |list| && PassedBy(list[i], s, n)
        invariant i <= |list| && list == old(list)
        invariant Free(list, s, n) == list[..i] + Free(list[i..], s, n)
      {
        FreeStep(list, i, s, n);
        i := i + 1;
      }
      PutAt(i, s, n);
    }

    method PutAt(i: nat, s: nat, n: nat)
      requires i <= |list| && (i < |list| ==> !PassedBy(list[i], s, n))
      modifies this
      ensures list == old(list)[..i] + Free(old(list)[i..], s, n)
    {
      if i == |list| {
        list := list[..i] + [Run(s, n)];
        return;
      }
      var b := list[i];
      FreeHere(list, i, s, n);
      if b.start + b.count == s {
        if i + 1 < |list| && s + n == list[i + 1].start {
          list := list[..i] + ([Run(b.start, b.count + n + list[i + 1].count)] + list[i + 2..]);
        } else {
          list := list[..i] + ([Run(b.start, b.count + n)] + list[i + 1..]);
        }
      } else if b.start == s + n {
        list := list[..i] + ([Run(s, n + b.count)] + list[i + 1..]);
      } else {
        list := list[..i] + ([Run(s, n)] + list[i..]);
      }
    }
  }
}
