/** What each kernel call does to the thread it is about, to the ready lists and wait lists, and to everybody else
    (os/scheduler.c, os/thread.c). */
module SchedulerSteps {
  import opened WaitList
  import opened Scheduler

  /** Nobody's status or priority changes but thread `t`'s. */
  ghost predicate OnlyMoves(s: State, r: State, t: nat)
  {
    && |r.stat| == |s.stat| == |r.prio| == |s.prio| && |r.lists| == |s.lists| && |r.waits| == |s.waits|
    && r.base == s.base && r.flags == s.flags && r.deep == s.deep
    && forall u :: 0 <= u < |s.stat| && u != t ==> r.stat[u] == s.stat[u] && r.prio[u] == s.prio[u]
  }

  /** Who runs, and how deep the scheduler is locked, is as before. */
  ghost predicate SameRunning(s: State, r: State) { r.current == s.current && r.lockNest == s.lockNest }

  ghost predicate OtherLists(s: State, r: State, p: nat)
  {
    |r.lists| == |s.lists| && forall q :: 0 <= q < |s.lists| && q != p ==> r.lists[q] == s.lists[q]
  }

  /** The thread leaves its place in the list for the end of it. */
  ghost predicate MovedLast(list: seq<nat>, t: nat, r: seq<nat>)
  {
    r != [] && r[|r| - 1] == t && LeftLine(list, t, r[..|r| - 1])
  }

  lemma LastIs(list: seq<nat>, t: nat)
    requires Distinct(list)
    ensures MovedLast(list, t, Without(list, t) + [t])
  {
    LeavesLine(list, t);
    assert (Without(list, t) + [t])[..|Without(list, t)|] == Without(list, t);
  }

  lemma ListFacts(s: State, t: nat)
    requires Inv(s) && t < |s.stat|
    ensures |s.prio| == |s.stat| && s.prio[t] < |s.lists| && Distinct(s.lists[s.prio[t]])
    ensures t in s.lists[s.prio[t]] <==> s.stat[t] == Ready
  {
    assert t in s.lists[s.prio[t]] <==> OnList(s, s.prio[t], t);
  }

  /** A thread that starts is ready, with its first priority, behind those of that priority. */
  lemma StartsLast(s: State, idle: nat, t: nat)
    requires Inv(s) && t < |s.stat| && s.stat[t] == Init
    ensures var r := Next(s, idle, Startup(t));
            && OnlyMoves(s, r, t) && SameRunning(s, r) && t < |s.base| && s.base[t] < |s.lists| && OtherLists(s, r, s.base[t])
            && r.stat[t] == Ready && r.prio[t] == s.base[t] && r.lists[s.base[t]] == s.lists[s.base[t]] + [t]
            && r.waits == s.waits
  {
    NotWaiting(s, t);
    UnlinkedNone(s, t);
  }

  lemma UnlinkedNone(s: State, t: nat)
    requires !Waits(s.waits, t)
    ensures Unlinked(s.waits, t) == s.waits
  {
    forall q | 0 <= q < |s.waits|
      ensures Without(s.waits[q], t) == s.waits[q]
    {
      assert !On(s.waits, q, t);
      WithoutNone(s.waits[q], t);
    }
  }

  /** Suspending takes a ready thread off its list; any other is refused. */
  lemma SuspendLeaves(s: State, idle: nat, t: nat)
    requires Inv(s) && t < |s.stat| && t != idle
    ensures var r := Next(s, idle, SuspendIt(t));
            if s.stat[t] != Ready then r == s
            else
              && OnlyMoves(s, r, t) && SameRunning(s, r) && s.prio[t] < |s.lists| && OtherLists(s, r, s.prio[t])
              && r.stat[t] == Suspend && r.prio[t] == s.prio[t]
              && LeftLine(s.lists[s.prio[t]], t, r.lists[s.prio[t]]) && r.waits == s.waits
  {
    ListFacts(s, t);
    LeavesLine(s.lists[s.prio[t]], t);
  }

  /** Resuming puts a suspended thread behind those of its priority and takes it out of every line; any other is
      refused. */
  lemma ResumeIsLast(s: State, idle: nat, t: nat)
    requires Inv(s) && t < |s.stat|
    ensures var r := Next(s, idle, Resume(t));
            if s.stat[t] != Suspend then r == s
            else
              && OnlyMoves(s, r, t) && SameRunning(s, r) && s.prio[t] < |s.lists| && OtherLists(s, r, s.prio[t])
              && r.stat[t] == Ready && r.prio[t] == s.prio[t] && r.lists[s.prio[t]] == s.lists[s.prio[t]] + [t]
              && forall q :: 0 <= q < |s.waits| ==> LeftLine(s.waits[q], t, r.waits[q])
  {
    ListFacts(s, t);
    AllLeave(s, t);
  }

  lemma AllLeave(s: State, t: nat)
    requires Inv(s)
    ensures forall q :: 0 <= q < |s.waits| ==> LeftLine(s.waits[q], t, Unlinked(s.waits, t)[q])
  {
    forall q | 0 <= q < |s.waits|
      ensures LeftLine(s.waits[q], t, Unlinked(s.waits, t)[q])
    {
      LeavesLine(s.waits[q], t);
    }
  }

  /** A timeout is a resume and a reschedule. */
  lemma TimeoutResumes(s: State, idle: nat, t: nat)
    requires Inv(s) && t < |s.stat| && s.stat[t] == Suspend
    ensures Inv(Next(s, idle, Resume(t)))
    ensures Next(s, idle, Timeout(t)) == Next(Next(s, idle, Resume(t)), idle, Reschedule)
  {
    NextKeepsInv(s, idle, Resume(t));
  }

  /** A ready thread that blocks leaves its ready list for its place in the wait list. */
  lemma BlockJoins(s: State, idle: nat, q: nat)
    requires Inv(s) && Blocks(s, idle, BlockOn(q)) && s.stat[s.current] == Ready
    ensures Known(s.waits[q], s.prio)
    ensures var r, t := Next(s, idle, BlockOn(q)), s.current;
            && OnlyMoves(s, r, t) && SameRunning(s, r) && s.prio[t] < |s.lists| && OtherLists(s, r, s.prio[t])
            && r.stat[t] == Suspend && r.prio[t] == s.prio[t] && LeftLine(s.lists[s.prio[t]], t, r.lists[s.prio[t]])
            && InLine(s.waits[q], t, s.prio, s.flags[q], r.waits[q])
            && forall k :: 0 <= k < |s.waits| && k != q ==> r.waits[k] == s.waits[k]
  {
    var t := s.current;
    ListFacts(s, t);
    LeavesLine(s.lists[s.prio[t]], t);
    WaitersKnown(s, q);
    JoinsInLine(s.waits[q], t, s.prio, s.flags[q]);
  }

  /** A new priority is the thread's from then on; if it is ready, it goes from its list to the end of the new one,
      which may be the same. */
  lemma PriorityMovesLast(s: State, idle: nat, t: nat, p: nat)
    requires Inv(s) && t < |s.stat| && p < |s.lists|
    ensures var r := Next(s, idle, Reprioritize(t, p));
            && OnlyMoves(s, r, t) && SameRunning(s, r) && r.stat[t] == s.stat[t] && r.prio[t] == p && r.waits == s.waits
            && s.prio[t] < |s.lists|
            && if s.stat[t] != Ready then r.lists == s.lists
               else
                 && (forall q :: 0 <= q < |s.lists| && q != p && q != s.prio[t] ==> r.lists[q] == s.lists[q])
                 && if p == s.prio[t] then MovedLast(s.lists[p], t, r.lists[p])
                    else r.lists[p] == s.lists[p] + [t] && LeftLine(s.lists[s.prio[t]], t, r.lists[s.prio[t]])
  {
    ListFacts(s, t);
    LeavesLine(s.lists[s.prio[t]], t);
    LastIs(s.lists[s.prio[t]], t);
    ChangePriorityInv(s, t, p);
  }

  /** A yield sends the running thread to the end of its list; alone there, or not ready, it stays. */
  lemma YieldMovesLast(s: State, idle: nat)
    requires Inv(s)
    ensures var r, t := Next(s, idle, YieldNow), s.current;
            if t < |s.stat| && s.stat[t] == Ready then
              && s.prio[t] < |s.lists| && r == s.(lists := r.lists) && OtherLists(s, r, s.prio[t])
              && if |s.lists[s.prio[t]]| > 1 then MovedLast(s.lists[s.prio[t]], t, r.lists[s.prio[t]]) else r == s
            else r == s
  {
    if s.current < |s.stat| {
      ListFacts(s, s.current);
      LastIs(s.lists[s.prio[s.current]], s.current);
    }
  }

  /** A closed thread is on no list, ready or waiting, and its status says so. */
  lemma CloseLeaves(s: State, idle: nat, t: nat)
    requires Inv(s) && t < |s.stat| && t != idle
    ensures var r := Next(s, idle, CloseIt(t));
            && OnlyMoves(s, r, t) && SameRunning(s, r) && s.prio[t] < |s.lists| && OtherLists(s, r, s.prio[t])
            && r.stat[t] == Close && r.prio[t] == s.prio[t] && LeftLine(s.lists[s.prio[t]], t, r.lists[s.prio[t]])
            && forall q :: 0 <= q < |s.waits| ==> LeftLine(s.waits[q], t, r.waits[q])
  {
    ListFacts(s, t);
    LeavesLine(s.lists[s.prio[t]], t);
    AllLeave(s, t);
    if s.stat[t] != Suspend {
      NotWaiting(s, t);
      UnlinkedNone(s, t);
    }
  }

  /** Rescheduling only changes who runs; the lock is counted and changes nothing else. */
  lemma LockCounts(s: State, idle: nat)
    requires Inv(s)
    ensures Next(s, idle, Reschedule) == s.(current := Next(s, idle, Reschedule).current)
    ensures s.lockNest > 0 ==> Next(s, idle, Reschedule) == s
    ensures Next(s, idle, Enter) == s.(lockNest := s.lockNest + 1)
    ensures Inv(Next(s, idle, Enter)) && Next(Next(s, idle, Enter), idle, Leave) == s
  {
    NextKeepsInv(s, idle, Enter);
  }
}
