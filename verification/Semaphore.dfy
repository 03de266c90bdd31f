/** The counting semaphore (os/ipc.c): a release hands its unit straight to the first waiter. */
module Semaphore {
  import opened WaitList

  const VALUE_MAX := 65535

  datatype Phase = Idle | Waiting | Granted | TimedOut

  datatype Outcome = Ok | Timeout | Full | Blocked

  /** `given` and `taken` count the successful releases and takes since the value was last set to `initial`. */
  datatype State = State(
    flag: Flag, prio: seq<nat>, phase: seq<Phase>, value: nat, waiters: seq<nat>,
    initial: nat, given: nat, taken: nat)

  datatype Step =
    | Take(t: nat, wait: bool)
    | Release
    | Expire(t: nat)
    | Return(t: nat)
    | Reset(to: nat)

  predicate IsWaiting(p: Phase) { p.Waiting? }

  /** Units are neither lost nor made, and nobody waits while there is one. */
  ghost predicate Inv(s: State)
  {
    && |s.prio| == |s.phase| && Lists(s.waiters, s.phase, IsWaiting)
    && s.value <= VALUE_MAX && (s.value > 0 ==> s.waiters == [])
    && s.initial + s.given == s.value + s.taken
  }

  predicate Enabled(s: State, e: Step)
  {
    match e
    case Take(t, _) => t < |s.phase| && s.phase[t].Idle?
    case Release => true
    case Expire(t) => t < |s.phase| && s.phase[t].Waiting?
    case Return(t) => t < |s.phase| && (s.phase[t].Granted? || s.phase[t].TimedOut?)
    case Reset(to) => to <= VALUE_MAX
  }

  function Released(phase: seq<Phase>): (r: seq<Phase>)
    ensures |r| == |phase|
    ensures forall i :: 0 <= i < |r| ==> r[i] == if phase[i].Waiting? then TimedOut else phase[i]
  {
    if phase == [] then []
    else [if phase[0].Waiting? then TimedOut else phase[0]] + Released(phase[1..])
  }

  function Next(s: State, e: Step): State
    requires Inv(s)
  {
    if !Enabled(s, e) then s
    else
      match e
      case Take(t, wait) =>
        if s.value > 0 then s.(value := s.value - 1, taken := s.taken + 1)
        else if wait then s.(phase := s.phase[t := Waiting], waiters := Insert(s.waiters, t, s.prio, s.flag))
        else s
      case Release =>
        if s.waiters != [] then
          s.(phase := s.phase[s.waiters[0] := Granted], waiters := s.waiters[1..], given := s.given + 1, taken := s.taken + 1)
        else if s.value < VALUE_MAX then s.(value := s.value + 1, given := s.given + 1)
        else s
      case Expire(t) => s.(phase := s.phase[t := TimedOut], waiters := Without(s.waiters, t))
      case Return(t) => s.(phase := s.phase[t := Idle])
      case Reset(to) =>
        s.(phase := Released(s.phase), waiters := [], value := to, initial := to, given := 0, taken := 0)
  }

  lemma NextKeepsInv(s: State, e: Step)
    requires Inv(s)
    ensures Inv(Next(s, e))
  {
    if Enabled(s, e) {
      match e {
        case Take(t, wait) =>
          if s.value == 0 && wait {
            ListsJoin(s.waiters, s.phase, IsWaiting, t, Waiting, s.prio, s.flag);
          }
        case Release =>
          if s.waiters != [] {
            ListsHead(s.waiters, s.phase, IsWaiting, Granted);
          }
        case Expire(t) => ListsWithout(s.waiters, s.phase, IsWaiting, t, TimedOut);
        case Return(t) => ListsOther(s.waiters, s.phase, IsWaiting, t, Idle);
        case Reset(to) =>
      }
    }
  }

  function Run(s: State, steps: seq<Step>): (r: State)
    requires Inv(s)
    ensures Inv(r)
    decreases |steps|
  {
    if steps == [] then s
    else
      NextKeepsInv(s, steps[0]);
      Run(Next(s, steps[0]), steps[1..])
  }

  /** Over any run since the value was last set: initial value plus successful releases is value plus
      successful takes, whoever times out, and nobody waits for a unit that is there. */
  lemma UnitsAreConserved(s: State, steps: seq<Step>)
    requires |s.prio| == |s.phase| && (forall t :: 0 <= t < |s.phase| ==> s.phase[t].Idle?)
    requires s.waiters == [] && s.value == s.initial <= VALUE_MAX && s.given == s.taken == 0
    ensures Inv(s)
    ensures var r := Run(s, steps); r.initial + r.given == r.value + r.taken && (r.value > 0 ==> r.waiters == [])
  {
    var r := Run(s, steps);
    assert Inv(r);
  }

  /** A release that succeeds. */
  function GivenBy(s: State, e: Step): nat
  {
    if e.Release? && (s.waiters != [] || s.value < VALUE_MAX) then 1 else 0
  }

  /** A take that returns success: at once, or when a thread handed a unit returns from its wait. */
  function TakenBy(s: State, e: Step): nat
  {
    if !Enabled(s, e) then 0
    else if e.Take? then if s.value > 0 then 1 else 0
    else if e.Return? && s.phase[e.t].Granted? then 1
    else 0
  }

  function AllGiven(s: State, steps: seq<Step>): nat
    requires Inv(s)
    decreases |steps|
  {
    if steps == [] then 0
    else
      NextKeepsInv(s, steps[0]);
      GivenBy(s, steps[0]) + AllGiven(Next(s, steps[0]), steps[1..])
  }

  function AllTaken(s: State, steps: seq<Step>): nat
    requires Inv(s)
    decreases |steps|
  {
    if steps == [] then 0
    else
      NextKeepsInv(s, steps[0]);
      TakenBy(s, steps[0]) + AllTaken(Next(s, steps[0]), steps[1..])
  }

  /** Threads that have been handed a unit and have not returned yet. */
  function OnTheirWay(s: State): nat { Count(s.phase, (p: Phase) => p.Granted?) }

  lemma StepBalances(s: State, e: Step)
    requires Inv(s) && !e.Reset?
    ensures s.value + OnTheirWay(s) + GivenBy(s, e) == Next(s, e).value + OnTheirWay(Next(s, e)) + TakenBy(s, e)
  {
    if Enabled(s, e) {
      match e {
        case Take(t, wait) =>
          if s.value == 0 && wait {
            CountUpdate(s.phase, (p: Phase) => p.Granted?, t, Waiting);
          }
        case Release =>
          if s.waiters != [] {
            assert s.phase[s.waiters[0]].Waiting?;
            CountUpdate(s.phase, (p: Phase) => p.Granted?, s.waiters[0], Granted);
          }
        case Expire(t) => CountUpdate(s.phase, (p: Phase) => p.Granted?, t, TimedOut);
        case Return(t) => CountUpdate(s.phase, (p: Phase) => p.Granted?, t, Idle);
      }
    }
  }

  /** Between resets, whoever times out: the value at first and the releases that succeed are the value at last,
      the takes that return success, and the threads handed a unit that are about to. */
  lemma {:induction false} UnitsBalance(s: State, steps: seq<Step>)
    requires Inv(s) && forall i :: 0 <= i < |steps| ==> !steps[i].Reset?
    ensures var r := Run(s, steps);
            s.value + OnTheirWay(s) + AllGiven(s, steps) == r.value + OnTheirWay(r) + AllTaken(s, steps)
    decreases |steps|
  {
    if steps != [] {
      NextKeepsInv(s, steps[0]);
      StepBalances(s, steps[0]);
      UnitsBalance(Next(s, steps[0]), steps[1..]);
    }
  }

  /** A release fails only at the largest value, and otherwise either one waiter has the unit or the value does. */
  lemma ReleaseGivesOne(s: State)
    requires Inv(s)
    ensures var r := Next(s, Release);
            if s.waiters == [] && s.value == VALUE_MAX then r == s
            else
              && r.given == s.given + 1
              && (s.waiters == [] ==> r.value == s.value + 1 && r.phase == s.phase)
              && (s.waiters != [] ==>
                   && r.value == s.value == 0 && s.waiters[0] < |r.phase|
                   && r.phase[s.waiters[0]].Granted? && s.waiters[0] !in r.waiters
                   && OnlyMoves(s, r, s.waiters[0]) && s.waiters == [s.waiters[0]] + r.waiters)
  {
    if s.waiters != [] {
      DistinctTail(s.waiters);
      assert s.phase[s.waiters[0]].Waiting?;
    }
  }

  // ---- what each step does ----

  /** At most thread `t` is elsewhere than before. */
  ghost predicate OnlyMoves(s: State, r: State, t: nat)
  {
    && |r.phase| == |s.phase| && r.flag == s.flag && r.prio == s.prio
    && forall u :: 0 <= u < |s.phase| && u != t ==> r.phase[u] == s.phase[u]
  }

  /** Who may take which step; any other step changes nothing. */
  lemma WhoMayStep(s: State, e: Step)
    requires Inv(s)
    ensures e.Take? ==> (Enabled(s, e) <==> e.t < |s.phase| && s.phase[e.t].Idle?)
    ensures e.Release? ==> Enabled(s, e)
    ensures e.Expire? ==> (Enabled(s, e) <==> e.t < |s.phase| && s.phase[e.t].Waiting?)
    ensures e.Return? ==> (Enabled(s, e) <==> e.t < |s.phase| && (s.phase[e.t].Granted? || s.phase[e.t].TimedOut?))
    ensures e.Reset? ==> (Enabled(s, e) <==> e.to <= VALUE_MAX)
    ensures !Enabled(s, e) ==> Next(s, e) == s
  {
  }

  /** A take has a unit if there is one and goes on; otherwise it waits in its place in line, or nothing is done
      when it has no time to wait. */
  lemma TakeTakesOrWaits(s: State, t: nat, wait: bool)
    requires Inv(s) && Enabled(s, Take(t, wait))
    ensures Known(s.waiters, s.prio)
    ensures var r := Next(s, Take(t, wait));
            && OnlyMoves(s, r, t)
            && if s.value > 0 then r.value == s.value - 1 && r.phase[t] == Idle && r.waiters == s.waiters
               else if wait then
                 r.value == 0 && r.phase[t] == Waiting && InLine(s.waiters, t, s.prio, s.flag, r.waiters)
               else r == s
  {
    if s.value == 0 && wait {
      JoinsInLine(s.waiters, t, s.prio, s.flag);
    }
  }

  /** A timeout takes its thread out of line without a unit; a thread that returns, with a unit or without,
      changes nothing else; a reset sends everybody who waits away and sets the value. */
  lemma WaitingEnds(s: State, e: Step)
    requires Inv(s) && (e.Expire? || e.Return? || e.Reset?) && Enabled(s, e)
    ensures var r := Next(s, e);
            && |r.phase| == |s.phase|
            && (e.Expire? ==>
                 && OnlyMoves(s, r, e.t) && r.phase[e.t] == TimedOut && r.value == s.value
                 && LeftLine(s.waiters, e.t, r.waiters))
            && (e.Return? ==>
                 OnlyMoves(s, r, e.t) && r.phase[e.t] == Idle && r.value == s.value && r.waiters == s.waiters)
            && (e.Reset? ==>
                 && r.value == e.to && r.waiters == []
                 && forall u :: 0 <= u < |s.phase| ==> r.phase[u] == if s.phase[u].Waiting? then TimedOut else s.phase[u])
  {
    if e.Expire? {
      LeavesLine(s.waiters, e.t);
    }
  }

  class Object {
    const flag: Flag
    const prio: seq<nat>
    var phase: seq<Phase>
    var value: nat
    var waiters: seq<nat>
    ghost var initial: nat
    ghost var given: nat
    ghost var taken: nat

    ghost function Snapshot(): State
      reads this
    {
      State(flag, prio, phase, value, waiters, initial, given, taken)
    }

    constructor (value: nat, flag: Flag, prio: seq<nat>)
      requires value <= VALUE_MAX
      ensures Inv(Snapshot()) && this.value == value && this.prio == prio
    {
      this.flag, this.prio, this.value, initial := flag, prio, value, value;
      phase := seq(|prio|, _ => Idle);
      waiters, given, taken := [], 0, 0;
    }

    method Take(t: nat, time: int) returns (r: Outcome)
      requires Inv(Snapshot()) && t < |phase| && phase[t].Idle?
      modifies this
      ensures Inv(Snapshot()) && Snapshot() == Next(old(Snapshot()), Step.Take(t, time != 0))
      ensures r == if old(value) > 0 then Ok else if time == 0 then Timeout else Blocked
    {
      NextKeepsInv(Snapshot(), Step.Take(t, time != 0));
      if value > 0 {
        value := value - 1;
        taken := taken + 1;
        return Ok;
      }
      if time == 0 {
        return Timeout;
      }
      ListsJoin(waiters, phase, IsWaiting, t, Waiting, prio, flag);
      var n := if flag == Fifo then |waiters| else Slot(waiters, prio, prio[t], 0);
      phase := phase[t := Waiting];
      waiters := waiters[..n] + [t] + waiters[n..];
      return Blocked;
    }

    method Release() returns (r: Outcome)
      requires Inv(Snapshot())
      modifies this
      ensures Inv(Snapshot()) && Snapshot() == Next(old(Snapshot()), Step.Release)
      ensures r == if old(waiters) == [] && old(value) == VALUE_MAX then Full else Ok
    {
      NextKeepsInv(Snapshot(), Step.Release);
      if waiters != [] {
        phase := phase[waiters[0] := Granted];
        waiters := waiters[1..];
        taken := taken + 1;
      } else if value < VALUE_MAX {
        value := value + 1;
      } else {
        return Full;
      }
      given := given + 1;
      return Ok;
    }
  }
}
