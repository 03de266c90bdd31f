/** The block pool (os/mempool.c): every block is preceded by one word, which links it to the next free block
    or, once handed out, points at the pool. First the free list in place, then the protocol of threads that
    wait for blocks. */
module MemoryPool {
  import opened Links
  import opened WaitList

  const OWNER := -2

  ghost function Upto(n: nat): (s: seq<nat>)
    ensures |s| == n && forall i :: 0 <= i < n ==> s[i] == i
  {
    if n == 0 then [] else Upto(n - 1) + [n - 1]
  }

  class Pool {
    const total: nat
    const words: array<int>
    var list: int
    var freeCount: nat
    ghost var free: seq<nat>

    /** The free list visits the free blocks, each once; the words of all other blocks name the pool. */
    ghost predicate Valid()
      reads this, words
    {
      && words.Length == total && Chained(words[..], list, free) && Distinct(free) && freeCount == |free|
      && forall b :: 0 <= b < total && b !in free ==> words[b] == OWNER
    }

    constructor (total: nat)
      requires 0 < total
      ensures Valid() && fresh(words) && this.total == total && free == Upto(total)
    {
      this.total := total;
      words := new int[total];
      freeCount := total;
      list := 0;
      free := Upto(total);
      new;
      var offset := 0;
      while offset < total
        invariant offset <= total && forall k :: 0 <= k < offset ==> words[k] == k + 1
        modifies words
      {
        words[offset] := offset + 1;
        offset := offset + 1;
      }
      words[offset - 1] := NIL;
      forall i | 0 <= i < |free|
        ensures LinkAt(words[..], free, i)
      {
      }
      forall b: nat | b < total
        ensures b in free
      {
        assert free[b] == b;
      }
    }

    /** The first free block leaves the list, if there is one. */
    method Take() returns (block: int)
      requires Valid()
      modifies this`list, this`freeCount, this`free, words
      ensures Valid()
      ensures old(free) == [] ==> block == NIL && free == []
      ensures old(free) != [] ==> 0 <= block < total && old(free) == [block] + free && words[block] == OWNER
    {
      if freeCount == 0 {
        return NIL;
      }
      ghost var was := words[..];
      ChainedTail(was, list, free);
      DistinctTail(free);
      freeCount := freeCount - 1;
      block := list;
      list := words[block];
      assert block !in free[1..];
      ChainedElsewhere(was, list, free[1..], block, OWNER);
      words[block] := OWNER;
      assert words[..] == was[block := OWNER];
      free := free[1..];
    }

    /** A block that was handed out becomes the first free one. */
    method GiveBack(block: nat)
      requires Valid() && block < total && block !in free
      modifies this`list, this`freeCount, this`free, words
      ensures Valid() && free == [block] + old(free)
    {
      ghost var was := words[..];
      ChainedPush(was, list, free, block);
      DistinctCons(block, free);
      freeCount := freeCount + 1;
      words[block] := list;
      assert words[..] == was[block := list];
      list := block;
      free := [block] + free;
    }
  }

  // ---- the protocol ----

  datatype Phase = Idle | Waiting | Woken

  /** `taken` are the blocks handed out and not yet given back. */
  datatype State = State(total: nat, phase: seq<Phase>, free: seq<nat>, taken: set<nat>, waiters: seq<nat>)

  datatype Step =
    | Alloc(t: nat, block: bool)
    | Retry(t: nat, block: bool)
    | Free(b: nat)
    | Expire(t: nat)

  predicate IsWaiting(p: Phase) { p.Waiting? }

  function IsWoken(): Phase -> bool { (p: Phase) => p.Woken? }

  predicate Enabled(s: State, e: Step)
  {
    match e
    case Alloc(t, _) => t < |s.phase| && s.phase[t].Idle?
    case Retry(t, _) => t < |s.phase| && s.phase[t].Woken?
    case Free(b) => b in s.taken
    case Expire(t) => t < |s.phase| && s.phase[t].Waiting?
  }

  /** Each block is free or taken, never both; while somebody waits, there are as many woken threads as free
      blocks. */
  ghost predicate Inv(s: State)
  {
    && Distinct(s.free) && Elems(s.free) !! s.taken
    && (forall b: nat :: b in s.free || b in s.taken <==> b < s.total)
    && Lists(s.waiters, s.phase, IsWaiting)
    && (s.waiters != [] ==> Count(s.phase, IsWoken()) >= |s.free|)
  }

  function At(s: State, t: nat, p: Phase): State
    requires t < |s.phase|
  {
    s.(phase := s.phase[t := p])
  }

  /** Allocation: the first free block, a place at the front of the waiters, or nothing. */
  function Obtain(s: State, t: nat, block: bool): State
    requires t < |s.phase|
  {
    if s.free != [] then At(s, t, Idle).(free := s.free[1..], taken := s.taken + {s.free[0]})
    else if block then At(s, t, Waiting).(waiters := [t] + s.waiters)
    else At(s, t, Idle)
  }

  function Next(s: State, e: Step): State
    requires Inv(s)
  {
    if !Enabled(s, e) then s
    else
      match e
      case Alloc(t, block) => Obtain(s, t, block)
      case Retry(t, block) => Obtain(s, t, block)
      case Free(b) =>
        var m := s.(free := [b] + s.free, taken := s.taken - {b});
        if s.waiters == [] then m else At(m, s.waiters[0], Woken).(waiters := s.waiters[1..])
      case Expire(t) => At(s, t, Idle).(waiters := Without(s.waiters, t))
  }

  lemma ObtainKeepsInv(s: State, t: nat, block: bool)
    requires Inv(s) && t < |s.phase| && !s.phase[t].Waiting?
    ensures Inv(Obtain(s, t, block))
  {
    var p := if s.free == [] && block then Waiting else Idle;
    CountUpdate(s.phase, IsWoken(), t, p);
    if s.free != [] {
      DistinctTail(s.free);
      ListsOther(s.waiters, s.phase, IsWaiting, t, Idle);
      assert forall b: nat :: b in s.free[1..] <==> b in Elems(s.free[1..]);
    } else if block {
      ListsPush(s.waiters, s.phase, IsWaiting, t, Waiting);
    } else {
      ListsOther(s.waiters, s.phase, IsWaiting, t, Idle);
    }
  }

  lemma FreeKeepsInv(s: State, b: nat)
    requires Inv(s) && b in s.taken
    ensures Inv(Next(s, Free(b)))
  {
    assert b in Elems(s.free) <==> b in s.free;
    DistinctCons(b, s.free);
    var r := Next(s, Free(b));
    assert forall x: nat :: x in r.free <==> x in Elems(r.free);
    if s.waiters != [] {
      ListsHead(s.waiters, s.phase, IsWaiting, Woken);
      CountUpdate(s.phase, IsWoken(), s.waiters[0], Woken);
    }
  }

  lemma NextKeepsInv(s: State, e: Step)
    requires Inv(s)
    ensures Inv(Next(s, e))
  {
    if Enabled(s, e) {
      match e {
        case Alloc(t, block) => ObtainKeepsInv(s, t, block);
        case Retry(t, block) => ObtainKeepsInv(s, t, block);
        case Free(b) => FreeKeepsInv(s, b);
        case Expire(t) =>
          ListsWithout(s.waiters, s.phase, IsWaiting, t, Idle);
          CountUpdate(s.phase, IsWoken(), t, Idle);
          assert s.waiters == [] ==> Without(s.waiters, t) == [];
      }
    }
  }

  function Run(s: State, steps: seq<Step>): (r: State)
    requires Inv(s)
    ensures Inv(r) && r.total == s.total && |r.phase| == |s.phase|
    decreases |steps|
  {
    if steps == [] then s
    else
      NextKeepsInv(s, steps[0]);
      Run(Next(s, steps[0]), steps[1..])
  }

  ghost predicate Initial(s: State)
  {
    && (forall t :: 0 <= t < |s.phase| ==> s.phase[t].Idle?)
    && s.free == Upto(s.total) && s.taken == {} && s.waiters == []
  }

  lemma InitialInv(s: State)
    requires Initial(s)
    ensures Inv(s)
  {
    forall b: nat | b < s.total
      ensures b in s.free
    {
      assert s.free[b] == b;
    }
  }

  /** In every reachable state a free block and a waiting thread together mean a woken thread on its way. */
  lemma NoLostWakeup(s: State, steps: seq<Step>)
    requires Initial(s)
    ensures Inv(s)
    ensures var r := Run(s, steps);
            && (r.waiters != [] ==> Count(r.phase, IsWoken()) >= |r.free|)
            && (r.waiters != [] && r.free != [] ==> exists t :: 0 <= t < |r.phase| && r.phase[t].Woken?)
  {
    InitialInv(s);
    var r := Run(s, steps);
    if r.waiters != [] && r.free != [] {
      CountedSomewhere(r.phase, IsWoken());
    }
  }

  /** A block handed out was free and is handed out once; given back, it is the next to be handed out. */
  lemma LastBackFirstOut(s: State, b: nat, t: nat, block: bool)
    requires Inv(s) && b in s.taken && t < |s.phase| && s.phase[t].Idle?
    ensures Inv(Next(s, Free(b))) && b !in s.free
    ensures s.waiters == [] ==>
              var r := Next(Next(s, Free(b)), Alloc(t, block));
              r.taken == s.taken && r.free == s.free && r.phase == s.phase
  {
    FreeKeepsInv(s, b);
    assert b !in Elems(s.free);
  }

  /** A run is its steps one after the other. */
  lemma {:induction false} RunExtends(s: State, steps: seq<Step>, e: Step)
    requires Inv(s)
    ensures Run(s, []) == s && Run(s, steps + [e]) == Next(Run(s, steps), e)
    decreases |steps|
  {
    if steps == [] {
      assert ([] + [e])[1..] == [];
    } else {
      NextKeepsInv(s, steps[0]);
      RunExtends(Next(s, steps[0]), steps[1..], e);
      assert (steps + [e])[1..] == steps[1..] + [e];
    }
  }

  // ---- what each step does ----

  /** At most thread `t` is elsewhere than before. */
  ghost predicate OnlyMoves(s: State, r: State, t: nat)
  {
    |r.phase| == |s.phase| && r.total == s.total && forall u :: 0 <= u < |s.phase| && u != t ==> r.phase[u] == s.phase[u]
  }

  /** Who may take which step; any other step changes nothing. */
  lemma WhoMayStep(s: State, e: Step)
    requires Inv(s)
    ensures e.Alloc? ==> (Enabled(s, e) <==> e.t < |s.phase| && s.phase[e.t].Idle?)
    ensures e.Retry? ==> (Enabled(s, e) <==> e.t < |s.phase| && s.phase[e.t].Woken?)
    ensures e.Free? ==> (Enabled(s, e) <==> e.b in s.taken)
    ensures e.Expire? ==> (Enabled(s, e) <==> e.t < |s.phase| && s.phase[e.t].Waiting?)
    ensures !Enabled(s, e) ==> Next(s, e) == s
  {
  }

  /** An allocation has the first free block; without one it waits, first in line, or returns with nothing done
      when it has no time left. */
  lemma AllocTakesOrWaits(s: State, e: Step)
    requires Inv(s) && (e.Alloc? || e.Retry?) && Enabled(s, e)
    ensures var r, t := Next(s, e), e.t;
            && OnlyMoves(s, r, t)
            && if s.free != [] then
                 && r.phase[t] == Idle && s.free == [s.free[0]] + r.free && r.taken == s.taken + {s.free[0]}
                 && s.free[0] !in s.taken && r.waiters == s.waiters
               else
                 && r.free == [] && r.taken == s.taken
                 && if e.block then r.phase[t] == Waiting && r.waiters == [t] + s.waiters
                    else r.phase[t] == Idle && r.waiters == s.waiters
  {
    if s.free != [] {
      assert s.free == [s.free[0]] + s.free[1..] && s.free[0] in Elems(s.free);
    }
  }

  /** A block given back is the first free one and wakes the first thread in line, and nobody else. */
  lemma FreeWakesFirst(s: State, b: nat)
    requires Inv(s) && b in s.taken
    ensures var r := Next(s, Free(b));
            && r.free == [b] + s.free && r.taken == s.taken - {b}
            && if s.waiters == [] then r.waiters == [] && r.phase == s.phase && r.total == s.total
               else
                 && OnlyMoves(s, r, s.waiters[0]) && s.waiters[0] < |r.phase| && r.phase[s.waiters[0]] == Woken
                 && s.waiters == [s.waiters[0]] + r.waiters
  {
    if s.waiters != [] {
      assert s.phase[s.waiters[0]].Waiting?;
    }
  }

  /** A timeout takes its thread out of line and out of the call. */
  lemma TimerEndsWaiting(s: State, t: nat)
    requires Inv(s) && Enabled(s, Expire(t))
    ensures var r := Next(s, Expire(t));
            && OnlyMoves(s, r, t) && r.phase[t] == Idle && r.free == s.free && r.taken == s.taken
            && LeftLine(s.waiters, t, r.waiters)
  {
    LeavesLine(s.waiters, t);
  }
}
