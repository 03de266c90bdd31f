/** The recursive mutex with priority inheritance (os/ipc.c), waiters in priority order. A smaller number is
    a more urgent priority. No other mutex is held and nobody else changes priorities. */
module Mutex {
  import opened WaitList

  const HOLD_MAX := 255
  const VALUE_MAX := 65535
  const NO_PRIORITY := 0xFF

  datatype Option<T> = None | Some(value: T)

  /** Outside the mutex's waiting, waiting, woken with ownership, woken by its timer. */
  datatype Phase = Idle | Waiting | Granted | TimedOut

  /** `prio` are the current priorities, `base` those the threads had before the mutex touched them, and
      `pressed` all threads that have waited since the owner got the mutex. */
  datatype State = State(
    value: nat, hold: nat, owner: Option<nat>, original: nat, waiters: seq<nat>,
    prio: seq<nat>, base: seq<nat>, phase: seq<Phase>, pressed: seq<nat>)

  datatype Step =
    | Take(t: nat, wait: bool)
    | Release(t: nat)
    | Expire(t: nat)
    | Return(t: nat)

  predicate IsWaiting(p: Phase) { p.Waiting? }

  /** The most urgent of `p` and the base priorities of `ts`. */
  function Least(p: nat, ts: seq<nat>, base: seq<nat>): (m: nat)
    requires Known(ts, base)
    ensures m <= p && forall i :: 0 <= i < |ts| ==> m <= base[ts[i]]
    ensures m == p || exists i :: 0 <= i < |ts| && m == base[ts[i]]
  {
    if ts == [] then p
    else
      var n := |ts| - 1;
      var m := Least(p, ts[..n], base);
      if base[ts[n]] < m then base[ts[n]] else m
  }

  ghost predicate Inv(s: State)
  {
    && |s.prio| == |s.base| == |s.phase|
    && s.value <= 1 && s.hold <= HOLD_MAX
    && (s.value == 1 <==> s.owner == None) && (s.hold == 0 <==> s.owner == None)
    && (s.waiters != [] ==> s.owner != None)
    && Sorted(s.waiters, s.prio) && Lists(s.waiters, s.phase, IsWaiting)
    && (forall t :: 0 <= t < |s.prio| && s.owner != Some(t) ==> s.prio[t] == s.base[t])
    && (s.owner == None ==> s.original == NO_PRIORITY)
    && (s.owner.Some? ==> OwnerOk(s, s.owner.value))
    && (forall t :: 0 <= t < |s.phase| && s.phase[t].Granted? ==> s.owner == Some(t))
  }

  /** The owner is as urgent as the most urgent thread that has waited for it, and no more; everybody who
      still waits is among those. */
  ghost predicate OwnerOk(s: State, o: nat)
  {
    && o < |s.prio| == |s.base| == |s.phase| && !s.phase[o].Waiting? && s.original == s.base[o]
    && Known(s.pressed, s.base) && s.prio[o] == Least(s.base[o], s.pressed, s.base)
    && forall i :: 0 <= i < |s.waiters| ==> s.waiters[i] in s.pressed
  }

  predicate Enabled(s: State, e: Step)
  {
    e.t < |s.phase| &&
    match e
    case Take(t, _) => s.phase[t].Idle?
    case Release(t) => s.phase[t].Idle?
    case Expire(t) => s.phase[t].Waiting?
    case Return(t) => s.phase[t].Granted? || s.phase[t].TimedOut?
  }

  predicate CanWait(s: State, t: nat)
  {
    t < |s.phase| == |s.prio| && s.owner.Some? && s.owner.value < |s.prio| && Known(s.waiters, s.prio)
  }

  /** The taker waits, and lends the owner its priority if that is more urgent. */
  function Enqueue(s: State, t: nat): State
    requires CanWait(s, t)
  {
    var o := s.owner.value;
    var prio := if s.prio[t] < s.prio[o] then s.prio[o := s.prio[t]] else s.prio;
    s.(prio := prio, waiters := Insert(s.waiters, t, prio, Prio),
       phase := s.phase[t := Waiting], pressed := s.pressed + [t])
  }

  /** The last release: the old priority comes back, and the first waiter becomes owner on the spot. */
  function HandOver(s: State, t: nat): State
    requires Inv(s) && s.owner == Some(t)
  {
    var prio := s.prio[t := s.original];
    if s.waiters == [] then
      s.(hold := 0, prio := prio, value := s.value + 1, owner := None, original := NO_PRIORITY, pressed := [])
    else
      var w := s.waiters[0];
      s.(hold := 1, prio := prio, owner := Some(w), original := prio[w], waiters := s.waiters[1..],
         phase := s.phase[w := Granted], pressed := s.waiters[1..])
  }

  function Next(s: State, e: Step): State
    requires Inv(s)
  {
    if !Enabled(s, e) then s
    else
      match e
      case Take(t, wait) =>
        if s.owner == Some(t) then if s.hold < HOLD_MAX then s.(hold := s.hold + 1) else s
        else if s.value > 0 then
          s.(value := s.value - 1, owner := Some(t), original := s.prio[t], hold := s.hold + 1, pressed := [])
        else if wait then Enqueue(s, t)
        else s
      case Release(t) =>
        if s.owner != Some(t) then s
        else if s.hold > 1 then s.(hold := s.hold - 1)
        else HandOver(s, t)
      case Expire(t) => s.(waiters := Without(s.waiters, t), phase := s.phase[t := TimedOut])
      case Return(t) => s.(phase := s.phase[t := Idle])
  }

  // ---- every step keeps the invariant ----

  lemma {:induction false} LeastMore(p: nat, ts: seq<nat>, base: seq<nat>, t: nat)
    requires Known(ts, base) && t < |base|
    ensures Known(ts + [t], base)
    ensures Least(p, ts + [t], base) == if base[t] < Least(p, ts, base) then base[t] else Least(p, ts, base)
  {
    assert (ts + [t])[..|ts|] == ts;
  }

  /** The owner's priority follows the newcomer's. */
  lemma EnqueueOwner(s: State, t: nat)
    requires Inv(s) && t < |s.phase| && s.phase[t].Idle? && s.owner.Some? && s.owner != Some(t)
    ensures OwnerOk(Enqueue(s, t), s.owner.value)
  {
    var o, r := s.owner.value, Enqueue(s, t);
    LeastMore(s.base[o], s.pressed, s.base, t);
    InsertMembers(s.waiters, t, r.prio, Prio);
    forall i | 0 <= i < |r.waiters|
      ensures r.waiters[i] in r.pressed
    {
      assert r.waiters[i] in r.waiters;
      if r.waiters[i] != t {
        var j :| 0 <= j < |s.waiters| && s.waiters[j] == r.waiters[i];
        assert s.waiters[j] in s.pressed;
      }
    }
  }

  lemma EnqueueKeepsInv(s: State, t: nat)
    requires Inv(s) && t < |s.phase| && s.phase[t].Idle? && s.owner.Some? && s.owner != Some(t)
    ensures Inv(Enqueue(s, t))
  {
    var r := Enqueue(s, t);
    EnqueueOwner(s, t);
    ListsJoin(s.waiters, s.phase, IsWaiting, t, Waiting, r.prio, Prio);
    SortedElsewhere(s.waiters, s.prio, r.prio, s.owner.value);
    PrioInsert(s.waiters, t, r.prio);
  }

  lemma SortedElsewhere(list: seq<nat>, prio: seq<nat>, prio': seq<nat>, o: nat)
    requires Sorted(list, prio) && |prio'| == |prio| && forall t :: 0 <= t < |prio| && t != o ==> prio'[t] == prio[t]
    requires forall i :: 0 <= i < |list| ==> list[i] != o
    ensures Sorted(list, prio')
  {
  }

  lemma HandOverKeepsInv(s: State, t: nat)
    requires Inv(s) && s.owner == Some(t) && s.phase[t].Idle? && s.hold == 1
    ensures Inv(HandOver(s, t))
  {
    var r := HandOver(s, t);
    if s.waiters != [] {
      var w := s.waiters[0];
      assert w in s.waiters && s.phase[w].Waiting?;
      ListsHead(s.waiters, s.phase, IsWaiting, Granted);
      SortedTail(s.waiters, s.prio, t, s.original);
      LeastIs(r.base[w], r.pressed, r.base);
    }
  }

  lemma SortedTail(waiters: seq<nat>, prio: seq<nat>, t: nat, p: nat)
    requires Sorted(waiters, prio) && waiters != [] && t < |prio| && t !in waiters
    ensures Sorted(waiters[1..], prio[t := p])
    ensures forall i :: 0 <= i < |waiters| - 1 ==> prio[waiters[0]] <= prio[t := p][waiters[1..][i]]
  {
    var r := waiters[1..];
    forall i | 0 <= i < |r|
      ensures r[i] == waiters[i + 1] && r[i] != t
    {
      assert waiters[i + 1] in waiters;
    }
  }

  lemma {:induction false} LeastIs(p: nat, ts: seq<nat>, base: seq<nat>)
    requires Known(ts, base) && forall i :: 0 <= i < |ts| ==> p <= base[ts[i]]
    ensures Least(p, ts, base) == p
    decreases |ts|
  {
    if ts != [] {
      LeastIs(p, ts[..|ts| - 1], base);
    }
  }

  lemma {:induction false} WithoutIsSorted(waiters: seq<nat>, prio: seq<nat>, t: nat)
    requires Sorted(waiters, prio)
    ensures Sorted(Without(waiters, t), prio)
  {
    if waiters != [] {
      var rest := waiters[1..];
      WithoutIsSorted(rest, prio, t);
      var w := Without(rest, t);
      forall i | 0 <= i < |w|
        ensures prio[waiters[0]] <= prio[w[i]]
      {
        assert w[i] in rest;
      }
    }
  }

  lemma ExpireKeepsInv(s: State, t: nat)
    requires Inv(s) && Enabled(s, Expire(t))
    ensures Inv(Next(s, Expire(t)))
  {
    var r := Next(s, Expire(t));
    ListsWithout(s.waiters, s.phase, IsWaiting, t, TimedOut);
    WithoutIsSorted(s.waiters, s.prio, t);
    forall i | 0 <= i < |r.waiters|
      ensures r.waiters[i] in s.pressed
    {
      assert r.waiters[i] in s.waiters;
    }
  }

  lemma NextKeepsInv(s: State, e: Step)
    requires Inv(s)
    ensures Inv(Next(s, e))
  {
    if Enabled(s, e) {
      match e {
        case Take(t, wait) =>
          if s.owner != Some(t) && s.value == 0 && wait {
            EnqueueKeepsInv(s, t);
          }
        case Release(t) =>
          if s.owner == Some(t) && s.hold == 1 {
            HandOverKeepsInv(s, t);
          }
        case Expire(t) => ExpireKeepsInv(s, t);
        case Return(t) => ListsOther(s.waiters, s.phase, IsWaiting, t, Idle);
      }
    }
  }

  // ---- runs ----

  /** Any interleaving of takes, releases, timeouts and returns; disabled steps are skipped. */
  function Run(s: State, steps: seq<Step>): (r: State)
    requires Inv(s)
    ensures Inv(r) && r.base == s.base
    decreases |steps|
  {
    if steps == [] then s
    else
      NextKeepsInv(s, steps[0]);
      Run(Next(s, steps[0]), steps[1..])
  }

  ghost predicate Initial(s: State)
  {
    && |s.prio| == |s.phase| && s.base == s.prio && (forall t :: 0 <= t < |s.phase| ==> s.phase[t].Idle?)
    && s.value == 1 && s.hold == 0 && s.owner == None && s.original == NO_PRIORITY && s.waiters == []
  }

  /** Priority inheritance, in every reachable state: the owner is at least as urgent as every waiter, every
      thread but the owner has its own priority, and the owner has its own unless somebody more urgent has
      waited for it. */
  lemma OwnerIsUrgent(s: State, steps: seq<Step>)
    requires Initial(s)
    ensures Inv(s)
    ensures var r := Run(s, steps);
            && (forall t :: 0 <= t < |r.prio| && r.owner != Some(t) ==> r.prio[t] == s.base[t])
            && (r.owner.Some? ==>
                 && r.owner.value < |r.prio| && Known(r.waiters, r.prio)
                 && (forall i :: 0 <= i < |r.waiters| ==> r.prio[r.owner.value] <= r.prio[r.waiters[i]])
                 && (r.prio[r.owner.value] == s.base[r.owner.value]
                     || exists u :: u in r.pressed && u < |s.base| && r.prio[r.owner.value] == s.base[u] < s.base[r.owner.value]))
  {
    var r := Run(s, steps);
    if r.owner.Some? {
      var o := r.owner.value;
      assert OwnerOk(r, o);
      forall i | 0 <= i < |r.waiters|
        ensures r.prio[o] <= r.prio[r.waiters[i]]
      {
        var w := r.waiters[i];
        assert w in r.pressed && r.phase[w].Waiting?;
        var j :| 0 <= j < |r.pressed| && r.pressed[j] == w;
        assert r.prio[o] <= r.base[r.pressed[j]];
      }
    }
  }

  /** Waiters stand in order of urgency, and there are some only while somebody owns the mutex; its counters
      agree on whether anybody does. */
  lemma WaitersInOrder(s: State, steps: seq<Step>)
    requires Initial(s)
    ensures Inv(s)
    ensures var r := Run(s, steps);
            && Sorted(r.waiters, r.prio) && (r.waiters != [] ==> r.owner != None)
            && (r.value == 1 <==> r.owner == None) && (r.hold == 0 <==> r.owner == None) && r.value <= 1
  {
    var r := Run(s, steps);
    assert Inv(r);
  }

  /** Full release gives the owner back the priority it had, and the mutex to the most urgent waiter, the one
      that has waited longest among equals, with its own priority. */
  lemma FullRelease(s: State, t: nat)
    requires Inv(s) && Enabled(s, Release(t)) && s.owner == Some(t) && s.hold == 1
    ensures var r := Next(s, Release(t));
            && t < |r.prio| && r.prio[t] == s.base[t]
            && (s.waiters == [] ==> r.owner == None && r.value == 1)
            && (s.waiters != [] ==>
                 && r.owner == Some(s.waiters[0]) && r.hold == 1 && r.waiters == s.waiters[1..]
                 && s.waiters[0] < |r.phase| && r.phase[s.waiters[0]].Granted?
                 && r.prio[s.waiters[0]] == s.base[s.waiters[0]]
                 && forall i :: 0 <= i < |s.waiters| ==>
                      s.waiters[i] < |s.base| && s.base[s.waiters[0]] <= s.base[s.waiters[i]])
  {
    if s.waiters != [] {
      var w := s.waiters[0];
      assert s.phase[w].Waiting? && OwnerOk(s, t);
      forall i | 0 <= i < |s.waiters|
        ensures s.waiters[i] < |s.base| && s.base[w] <= s.base[s.waiters[i]]
      {
        assert s.phase[s.waiters[i]].Waiting?;
        assert s.prio[w] <= s.prio[s.waiters[i]];
      }
    }
  }

  /** A waiter that leaves the list by another thread's doing leaves as the owner ... */
  lemma HandedOver(s: State, t: nat, e: Step)
    requires Inv(s) && t < |s.phase| && s.phase[t].Waiting? && e != Expire(t)
    ensures var r := Next(s, e);
            && t < |r.phase| && s.owner != Some(t)
            && (r.phase[t].Waiting? || r.phase[t].Granted?) && (r.owner == Some(t) <==> r.phase[t].Granted?)
  {
    assert s.waiters != [] ==> s.phase[s.waiters[0]].Waiting?;
  }

  /** ... and by its timer not as the owner; either way that is settled until it returns from the call. */
  lemma SettledOnce(s: State, t: nat, e: Step)
    requires Inv(s) && t < |s.phase| && e != Return(t)
    requires s.phase[t].Granted? || s.phase[t].TimedOut?
    ensures var r := Next(s, e);
            && t < |r.phase| && r.phase[t] == s.phase[t]
            && (r.owner == Some(t) <==> s.owner == Some(t)) && (s.phase[t].Granted? ==> s.owner == Some(t))
  {
    assert s.waiters != [] ==> s.phase[s.waiters[0]].Waiting?;
  }

  lemma ExpiredIsNotOwner(s: State, t: nat)
    requires Inv(s) && t < |s.phase| && s.phase[t].Waiting?
    ensures var r := Next(s, Expire(t));
            && t < |r.phase| && r.phase[t].TimedOut? && t !in r.waiters && r.owner == s.owner != Some(t)
            && r.prio == s.prio
  {
    assert s.owner.Some? ==> OwnerOk(s, s.owner.value);
  }

  // ---- what each step does ----

  /** At most thread `t` is elsewhere in its call than before. */
  ghost predicate OnlyMoves(s: State, r: State, t: nat)
  {
    && |r.phase| == |s.phase| == |r.prio| == |s.prio| && r.base == s.base
    && forall u :: 0 <= u < |s.phase| && u != t ==> r.phase[u] == s.phase[u]
  }

  ghost predicate SamePriorities(s: State, r: State, t: nat)
  {
    |r.prio| == |s.prio| && forall u :: 0 <= u < |s.prio| && u != t ==> r.prio[u] == s.prio[u]
  }

  /** Who may take which step; any other step changes nothing. */
  lemma WhoMayStep(s: State, e: Step)
    requires Inv(s)
    ensures e.Take? || e.Release? ==> (Enabled(s, e) <==> e.t < |s.phase| && s.phase[e.t].Idle?)
    ensures e.Expire? ==> (Enabled(s, e) <==> e.t < |s.phase| && s.phase[e.t].Waiting?)
    ensures e.Return? ==> (Enabled(s, e) <==> e.t < |s.phase| && (s.phase[e.t].Granted? || s.phase[e.t].TimedOut?))
    ensures !Enabled(s, e) ==> Next(s, e) == s
  {
  }

  /** The owner's next hold: one more, up to the limit, and nothing else. */
  lemma OwnerTakesAgain(s: State, t: nat, wait: bool)
    requires Inv(s) && Enabled(s, Take(t, wait)) && s.owner == Some(t)
    ensures var r := Next(s, Take(t, wait));
            && r.hold == (if s.hold == HOLD_MAX then s.hold else s.hold + 1) && r.owner == Some(t)
            && r.value == s.value && r.original == s.original && r.waiters == s.waiters && r.prio == s.prio
            && r.phase == s.phase && r.base == s.base && r.pressed == s.pressed
  {
  }

  /** A free mutex is the taker's, who holds it once and will get back the priority it has now. */
  lemma FreeIsTaken(s: State, t: nat, wait: bool)
    requires Inv(s) && Enabled(s, Take(t, wait)) && s.owner == None
    ensures var r := Next(s, Take(t, wait));
            && r.owner == Some(t) && r.hold == 1 && r.value == 0 && t < |s.prio| && r.original == s.prio[t] == s.base[t]
            && r.waiters == s.waiters == [] && r.prio == s.prio && r.phase == s.phase && r.base == s.base
  {
  }

  /** Somebody else's mutex: with time to wait the taker joins the waiters in its place in line and the owner
      becomes as urgent as the two of them; without, nothing happens. */
  lemma OthersIsWaitedFor(s: State, t: nat, wait: bool)
    requires Inv(s) && Enabled(s, Take(t, wait)) && s.owner.Some? && s.owner != Some(t)
    ensures var r, o := Next(s, Take(t, wait)), s.owner.value;
            && o < |s.prio| == |r.prio|
            && if !wait then r == s
               else
                 && OnlyMoves(s, r, t) && r.phase[t] == Waiting && SamePriorities(s, r, o)
                 && r.prio[o] == (if s.prio[t] < s.prio[o] then s.prio[t] else s.prio[o])
                 && Known(s.waiters, r.prio) && InLine(s.waiters, t, r.prio, Prio, r.waiters)
                 && r.owner == s.owner && r.hold == s.hold && r.value == s.value && r.original == s.original
  {
    assert OwnerOk(s, s.owner.value);
    if wait {
      EnqueueKeepsInv(s, t);
      JoinsInLine(s.waiters, t, Next(s, Take(t, wait)).prio, Prio);
    }
  }

  /** A release gives up one hold and nothing else while more than one is left; nobody but the owner releases. */
  lemma InnerRelease(s: State, t: nat)
    requires Inv(s) && Enabled(s, Release(t)) && (s.owner != Some(t) || s.hold > 1)
    ensures var r := Next(s, Release(t));
            && r.hold == (if s.owner == Some(t) then s.hold - 1 else s.hold) && r.owner == s.owner
            && r.value == s.value && r.original == s.original && r.waiters == s.waiters && r.prio == s.prio
            && r.phase == s.phase && r.base == s.base && r.pressed == s.pressed
  {
  }

  /** The last release moves nobody but the first waiter, and no priority but the owner's. */
  lemma OuterReleaseElsewhere(s: State, t: nat)
    requires Inv(s) && Enabled(s, Release(t)) && s.owner == Some(t) && s.hold == 1
    ensures var r := Next(s, Release(t));
            && SamePriorities(s, r, t) && r.base == s.base
            && (s.waiters == [] ==> r.phase == s.phase && r.waiters == [])
            && (s.waiters != [] ==> OnlyMoves(s, r, s.waiters[0]) && s.waiters == [s.waiters[0]] + r.waiters)
  {
    if s.waiters != [] {
      assert s.waiters == [s.waiters[0]] + s.waiters[1..];
    }
  }

  /** A timeout takes its thread out of line, a return out of the call, and nothing else changes. */
  lemma LeavesQuietly(s: State, e: Step)
    requires Inv(s) && (e.Expire? || e.Return?) && Enabled(s, e)
    ensures var r := Next(s, e);
            && OnlyMoves(s, r, e.t) && r.phase[e.t] == (if e.Expire? then TimedOut else Idle) && r.prio == s.prio
            && r.owner == s.owner && r.hold == s.hold && r.value == s.value && r.original == s.original
            && (if e.Expire? then LeftLine(s.waiters, e.t, r.waiters) else r.waiters == s.waiters)
  {
    if e.Expire? {
      LeavesLine(s.waiters, e.t);
    }
  }

  // ---- how long the owner keeps it ----

  /** How many holds of the owner a step adds: its successful takes less its releases. */
  function HoldsBy(s: State, t: nat, e: Step): int
  {
    if !Enabled(s, e) || e.t != t then 0
    else if e.Take? && s.hold < HOLD_MAX then 1
    else if e.Release? then -1
    else 0
  }

  /** Thread `t`'s takes that succeed less its releases, over a run. */
  function Balance(s: State, t: nat, steps: seq<Step>): int
    requires Inv(s)
    decreases |steps|
  {
    if steps == [] then 0
    else
      NextKeepsInv(s, steps[0]);
      HoldsBy(s, t, steps[0]) + Balance(Next(s, steps[0]), t, steps[1..])
  }

  /** At no time have the releases caught up with the `held` holds and the takes since. */
  predicate StillHeld(s: State, t: nat, held: int, steps: seq<Step>)
    requires Inv(s)
    decreases |steps|
  {
    held > 0 &&
    (steps == [] ||
     (NextKeepsInv(s, steps[0]);
      StillHeld(Next(s, steps[0]), t, held + HoldsBy(s, t, steps[0]), steps[1..])))
  }

  lemma OneStepHeld(s: State, t: nat, e: Step)
    requires Inv(s) && s.owner == Some(t) && s.hold + HoldsBy(s, t, e) > 0
    ensures Next(s, e).owner == Some(t) && Next(s, e).hold == s.hold + HoldsBy(s, t, e)
  {
  }

  /** While the releases have not caught up with the takes, whoever else takes, waits or times out, the owner
      stays the owner and its hold count is the difference. */
  lemma {:induction false} HeldUntil(s: State, t: nat, steps: seq<Step>)
    requires Inv(s) && s.owner == Some(t) && StillHeld(s, t, s.hold, steps)
    ensures var r := Run(s, steps); r.owner == Some(t) && r.hold == s.hold + Balance(s, t, steps)
    decreases |steps|
  {
    if steps != [] {
      var m := Next(s, steps[0]);
      NextKeepsInv(s, steps[0]);
      assert StillHeld(m, t, s.hold + HoldsBy(s, t, steps[0]), steps[1..]);
      assert s.hold + HoldsBy(s, t, steps[0]) > 0;
      OneStepHeld(s, t, steps[0]);
      HeldUntil(m, t, steps[1..]);
    }
  }

  /** From the take of a free mutex on, the owner gives it up at the release that makes its releases as many as
      its successful takes, and not before. */
  lemma GivenUpWhenEven(s: State, t: nat, wait: bool, steps: seq<Step>)
    requires Inv(s) && Enabled(s, Take(t, wait)) && s.owner == None
    ensures var m := Next(s, Take(t, wait));
            && Inv(m)
            && (StillHeld(m, t, 1, steps) ==>
                 var r := Run(m, steps);
                 && r.owner == Some(t) && r.hold == 1 + Balance(m, t, steps)
                 && (Enabled(r, Release(t)) ==>
                      (Next(r, Release(t)).owner != Some(t) <==> 1 + Balance(m, t, steps) + HoldsBy(r, t, Release(t)) == 0)))
  {
    NextKeepsInv(s, Take(t, wait));
    FreeIsTaken(s, t, wait);
    var m := Next(s, Take(t, wait));
    if StillHeld(m, t, 1, steps) {
      HeldUntil(m, t, steps);
      var r := Run(m, steps);
      if Enabled(r, Release(t)) && r.hold == 1 {
        FullRelease(r, t);
        NotAmongWaiters(r, t);
      }
    }
  }

  lemma NotAmongWaiters(s: State, t: nat)
    requires Inv(s) && t < |s.phase| && s.phase[t].Idle?
    ensures t !in s.waiters
  {
  }

  // ---- the mutex in place ----

  /** How a call ends, or that the caller has to wait. */
  datatype Outcome = Ok | Full | Timeout | NotOwner | Blocked

  class Object {
    var value: nat
    var hold: nat
    var owner: Option<nat>
    var original: nat
    var waiters: seq<nat>
    var prio: seq<nat>
    var phase: seq<Phase>
    ghost var base: seq<nat>
    ghost var pressed: seq<nat>

    ghost function Snapshot(): State
      reads this
    {
      State(value, hold, owner, original, waiters, prio, base, phase, pressed)
    }

    constructor (prio: seq<nat>)
      ensures Inv(Snapshot()) && Initial(Snapshot()) && Snapshot().base == prio
    {
      value, hold, owner, original, waiters := 1, 0, None, NO_PRIORITY, [];
      this.prio, base, pressed := prio, prio, [];
      phase := seq(|prio|, _ => Idle);
    }

    /** The critical section of a take by thread `t`. */
    method Take(t: nat, time: int) returns (r: Outcome)
      requires Inv(Snapshot()) && Enabled(Snapshot(), Step.Take(t, time != 0))
      modifies this
      ensures Inv(Snapshot()) && Snapshot() == Next(old(Snapshot()), Step.Take(t, time != 0))
      ensures r == Full <==> old(owner) == Some(t) && old(hold) == HOLD_MAX
      ensures r == Ok <==> owner == Some(t) && hold == old(hold) + 1
      ensures r == Timeout <==> old(owner) != None && old(owner) != Some(t) && time == 0
      ensures r == Blocked <==> phase[t].Waiting?
      ensures r == Full || r == Timeout ==> Snapshot() == old(Snapshot())
      ensures old(owner) == None ==> owner == Some(t) && hold == 1
      ensures old(owner) == Some(t) && old(hold) < HOLD_MAX ==> owner == Some(t) && hold == old(hold) + 1
      ensures old(owner) != None && old(owner) != Some(t) && time != 0 ==> r == Blocked
    {
      NextKeepsInv(Snapshot(), Step.Take(t, time != 0));
      if owner == Some(t) {
        if hold < HOLD_MAX {
          hold := hold + 1;
        } else {
          return Full;
        }
      } else if value > 0 {
        value := value - 1;
        owner := Some(t);
        original := prio[t];
        pressed := [];
        if hold < HOLD_MAX {
          hold := hold + 1;
        }
      } else if time == 0 {
        return Timeout;
      } else {
        Wait(t);
        return Blocked;
      }
      return Ok;
    }

    /** Lends the priority and joins the waiters before the first less urgent one. */
    method Wait(t: nat)
      requires CanWait(Snapshot(), t)
      modifies this
      ensures Snapshot() == Enqueue(old(Snapshot()), t)
    {
      if prio[t] < prio[owner.value] {
        prio := prio[owner.value := prio[t]];
      }
      var n := FindSlot(waiters, prio, prio[t]);
      waiters := waiters[..n] + [t] + waiters[n..];
      phase := phase[t := Waiting];
      pressed := pressed + [t];
    }

    /** The critical section of a release by thread `t`. */
    method Release(t: nat) returns (r: Outcome)
      requires Inv(Snapshot()) && Enabled(Snapshot(), Step.Release(t))
      modifies this
      ensures Inv(Snapshot()) && Snapshot() == Next(old(Snapshot()), Step.Release(t))
      ensures r == if old(owner) == Some(t) then Ok else NotOwner
      ensures old(owner) == Some(t) && old(hold) > 1 ==> owner == Some(t) && hold == old(hold) - 1
      ensures old(owner) == Some(t) && old(hold) == 1 ==>
                if old(waiters) == [] then owner == None && hold == 0 else owner == Some(old(waiters)[0]) && hold == 1
    {
      NextKeepsInv(Snapshot(), Step.Release(t));
      if owner != Some(t) {
        return NotOwner;
      }
      if hold > 1 {
        hold := hold - 1;
      } else {
        LastRelease(t);
      }
      return Ok;
    }

    /** The hold count drops to zero. */
    method LastRelease(t: nat)
      requires Inv(Snapshot()) && owner == Some(t) && hold == 1
      modifies this
      ensures Snapshot() == HandOver(old(Snapshot()), t)
    {
      assert OwnerOk(Snapshot(), t);
      hold := hold - 1;
      if original != prio[t] {
        prio := prio[t := original];
      }
      if waiters != [] {
        var w := waiters[0];
        owner := Some(w);
        original := prio[w];
        if hold < HOLD_MAX {
          hold := hold + 1;
        }
        waiters := waiters[1..];
        phase := phase[w := Granted];
        pressed := waiters;
      } else {
        if value < VALUE_MAX {
          value := value + 1;
        }
        owner := None;
        original := NO_PRIORITY;
        pressed := [];
      }
    }
  }
}
