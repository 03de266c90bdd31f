/** The ready table (os/scheduler.c): one list of ready threads per priority, and a bitmap of the lists that
    are not empty, in one level up to 32 priorities and in two levels up to 256. Words are kept bit by bit. */
module Scheduler {
  import opened WaitList

  type Word = w: seq<bool> | |w| == 32 witness seq(32, _ => false)

  datatype Stat = Init | Ready | Suspend | Close

  function Zero(): Word { seq(32, _ => false) }

  // ---- the first bit set ----

  /** The lowest bit set among `n` bits from `lo` on, or `n`: the table of lowest bits of a byte. */
  function Lowest(w: Word, lo: nat, n: nat): (k: nat)
    requires lo + n <= 32
    ensures k <= n && (k < n ==> w[lo + k]) && forall j :: lo <= j < lo + k ==> !w[j]
    decreases n
  {
    if n == 0 then 0 else if w[lo] then 0 else 1 + Lowest(w, lo + 1, n - 1)
  }

  predicate AnyBit(w: Word, lo: nat, n: nat)
    requires lo + n <= 32
  {
    Lowest(w, lo, n) < n
  }

  /** Looks at the word a byte at a time, and numbers the bits from one. */
  function FindFirstSet(w: Word): (r: nat)
    ensures r <= 32
  {
    if !AnyBit(w, 0, 32) then 0
    else if AnyBit(w, 0, 8) then Lowest(w, 0, 8) + 1
    else if AnyBit(w, 8, 8) then Lowest(w, 8, 8) + 9
    else if AnyBit(w, 16, 8) then Lowest(w, 16, 8) + 17
    else Lowest(w, 24, 8) + 25
  }

  /** No bit below `k` is set. */
  predicate ClearBelow(w: Word, k: nat)
  {
    forall j :: 0 <= j < k && j < 32 ==> !w[j]
  }

  lemma ClearByte(w: Word, lo: nat, n: nat)
    requires lo + n <= 32 && ClearBelow(w, lo) && !AnyBit(w, lo, n)
    ensures ClearBelow(w, lo + n)
  {
  }

  lemma LowestInByte(w: Word, lo: nat, n: nat)
    requires lo + n <= 32 && ClearBelow(w, lo) && AnyBit(w, lo, n)
    ensures var k := Lowest(w, lo, n); w[lo + k] && ClearBelow(w, lo + k)
  {
  }

  /** Zero for a word without bits, otherwise the number of the lowest bit. */
  lemma FirstSetIsLowest(w: Word)
    ensures FindFirstSet(w) == 0 <==> forall j :: 0 <= j < 32 ==> !w[j]
    ensures FindFirstSet(w) > 0 ==> w[FindFirstSet(w) - 1] && forall j :: 0 <= j < FindFirstSet(w) - 1 ==> !w[j]
  {
    if !AnyBit(w, 0, 32) {
      ClearByte(w, 0, 32);
    } else if AnyBit(w, 0, 8) {
      LowestInByte(w, 0, 8);
    } else {
      ClearByte(w, 0, 8);
      UpperBytes(w);
    }
  }

  lemma UpperBytes(w: Word)
    requires AnyBit(w, 0, 32) && !AnyBit(w, 0, 8) && ClearBelow(w, 8)
    ensures FindFirstSet(w) > 0 && w[FindFirstSet(w) - 1] && ClearBelow(w, FindFirstSet(w) - 1)
  {
    if AnyBit(w, 8, 8) {
      LowestInByte(w, 8, 8);
    } else {
      ClearByte(w, 8, 8);
      if AnyBit(w, 16, 8) {
        LowestInByte(w, 16, 8);
      } else {
        ClearByte(w, 16, 8);
        assert w[Lowest(w, 0, 32)];
        LowestInByte(w, 24, 8);
      }
    }
  }

  // ---- the ready table ----

  /** `deep` says that the bitmap has two levels: a group bit per eight priorities and a byte for each. `base`
      are the priorities threads start with, `waits` the wait lists of the kernel objects, each with its order. */
  datatype State = State(
    deep: bool, lists: seq<seq<nat>>, group: Word, table: seq<Word>,
    base: seq<nat>, prio: seq<nat>, stat: seq<Stat>, current: nat, lockNest: nat,
    flags: seq<Flag>, waits: seq<seq<nat>>)

  ghost predicate Sized(s: State)
  {
    && |s.lists| <= (if s.deep then 256 else 32) && |s.table| == 32 && |s.base| == |s.prio| == |s.stat|
    && forall t :: 0 <= t < |s.prio| ==> s.base[t] < |s.lists| && s.prio[t] < |s.lists|
  }

  /** A thread is on the list of its priority when it is ready, once, and on no other list. */
  ghost predicate Listed(s: State)
    requires Sized(s)
  {
    && (forall p :: 0 <= p < |s.lists| ==> Distinct(s.lists[p]))
    && forall p, t: nat :: 0 <= p < |s.lists| ==> (t in s.lists[p] <==> OnList(s, p, t))
  }

  ghost predicate OnList(s: State, p: nat, t: nat)
    requires Sized(s)
  {
    t < |s.stat| && s.stat[t] == Ready && s.prio[t] == p
  }

  predicate Busy(lists: seq<seq<nat>>, p: nat)
  {
    p < |lists| && lists[p] != []
  }

  /** The bitmap marks exactly the priorities that have ready threads. */
  ghost predicate Marked(s: State)
    requires Sized(s)
  {
    if s.deep then
      && (forall n, b :: 0 <= n < 32 && 0 <= b < 32 ==> (s.table[n][b] <==> b < 8 && Busy(s.lists, 8 * n + b)))
      && forall n :: 0 <= n < 32 ==> (s.group[n] <==> exists b :: 0 <= b < 8 && s.table[n][b])
    else forall p :: 0 <= p < 32 ==> (s.group[p] <==> Busy(s.lists, p))
  }

  ghost predicate ReadyOk(s: State)
  {
    Sized(s) && Listed(s) && Marked(s)
  }

  /** Every thread that waits is suspended, and waits once, on one list. */
  ghost predicate WaitsOk(waits: seq<seq<nat>>, stat: seq<Stat>)
  {
    && (forall q :: 0 <= q < |waits| ==> Distinct(waits[q]))
    && (forall q: nat, t: nat :: On(waits, q, t) ==> t < |stat| && stat[t] == Suspend)
    && forall q: nat, r: nat, t: nat :: On(waits, q, t) && On(waits, r, t) ==> q == r
  }

  predicate On(waits: seq<seq<nat>>, q: nat, t: nat)
  {
    q < |waits| && t in waits[q]
  }

  /** A ready thread is on the list of its priority and on no other list, a suspended one on at most one wait
      list, and the bitmap is exact. */
  ghost predicate Inv(s: State)
  {
    ReadyOk(s) && |s.flags| == |s.waits| && WaitsOk(s.waits, s.stat)
  }

  /** The bits of priority `p` are set ... */
  function SetMarks(s: State, p: nat): State
    requires p < (if s.deep then 256 else 32) && |s.table| == 32
  {
    if s.deep then s.(table := s.table[p / 8 := s.table[p / 8][p % 8 := true]], group := s.group[p / 8 := true])
    else s.(group := s.group[p := true])
  }

  /** ... or cleared, the group bit only when the whole byte is. */
  function ClearMarks(s: State, p: nat): State
    requires p < (if s.deep then 256 else 32) && |s.table| == 32
  {
    if s.deep then
      var byte := s.table[p / 8][p % 8 := false];
      s.(table := s.table[p / 8 := byte], group := if AnyBit(byte, 0, 32) then s.group else s.group[p / 8 := false])
    else s.(group := s.group[p := false])
  }

  /** The thread becomes ready, last on the list of its priority. */
  function MakeReady(s: State, t: nat): State
    requires Sized(s) && t < |s.stat|
  {
    var p := s.prio[t];
    SetMarks(s.(stat := s.stat[t := Ready], lists := s.lists[p := s.lists[p] + [t]]), p)
  }

  /** The thread leaves its list; its status is the caller's affair. */
  function Remove(s: State, t: nat): State
    requires Sized(s) && t < |s.stat|
  {
    var p := s.prio[t];
    var left := Without(s.lists[p], t);
    var r := s.(lists := s.lists[p := left]);
    if left == [] then ClearMarks(r, p) else r
  }

  /** The bitmap after a change of list `p` alone, when its bits follow. */
  lemma MarksFollow(s: State, p: nat, list: seq<nat>)
    requires Sized(s) && Marked(s) && p < |s.lists|
    ensures var m := s.(lists := s.lists[p := list]);
            var r := if list != [] then SetMarks(m, p) else ClearMarks(m, p);
            Sized(r) && Marked(r)
  {
    var m := s.(lists := s.lists[p := list]);
    var r := if list != [] then SetMarks(m, p) else ClearMarks(m, p);
    if s.deep {
      DeepMarks(s, p, list, r);
    }
  }

  lemma DeepMarks(s: State, p: nat, list: seq<nat>, r: State)
    requires Sized(s) && Marked(s) && s.deep && p < |s.lists|
    requires var m := s.(lists := s.lists[p := list]); r == if list != [] then SetMarks(m, p) else ClearMarks(m, p)
    ensures Marked(r)
  {
    var n0, b0 := p / 8, p % 8;
    assert p == 8 * n0 + b0;
    forall n, b | 0 <= n < 32 && 0 <= b < 32
      ensures r.table[n][b] <==> b < 8 && Busy(r.lists, 8 * n + b)
    {
      assert b < 8 && 8 * n + b == p ==> n == n0 && b == b0;
      assert s.table[n][b] <==> b < 8 && Busy(s.lists, 8 * n + b);
    }
    forall n | 0 <= n < 32
      ensures r.group[n] <==> exists b :: 0 <= b < 8 && r.table[n][b]
    {
      if n == n0 {
        if list != [] {
          assert r.table[n][b0];
        } else {
          var byte := r.table[n];
          assert forall b :: 8 <= b < 32 ==> !byte[b];
          assert AnyBit(byte, 0, 32) ==> byte[Lowest(byte, 0, 32)];
          assert s.group[n] <==> exists b :: 0 <= b < 8 && s.table[n][b];
          if AnyBit(byte, 0, 32) {
            assert s.table[n][Lowest(byte, 0, 32)];
          }
        }
      } else {
        assert r.table[n] == s.table[n];
      }
    }
  }

  lemma InsertKeepsInv(s: State, t: nat)
    requires ReadyOk(s) && t < |s.stat| && s.stat[t] != Ready
    ensures ReadyOk(MakeReady(s, t))
  {
    var p := s.prio[t];
    var r := MakeReady(s, t);
    assert t !in s.lists[p] by {
      assert t in s.lists[p] <==> OnList(s, p, t);
    }
    MarksFollow(s, p, s.lists[p] + [t]);
    forall q, u: nat | 0 <= q < |r.lists|
      ensures u in r.lists[q] <==> OnList(r, q, u)
    {
      assert u in s.lists[q] <==> OnList(s, q, u);
    }
  }

  /** A ready thread leaves with another status. */
  function Depart(s: State, t: nat, to: Stat): State
    requires Sized(s) && t < |s.stat|
  {
    Remove(s, t).(stat := s.stat[t := to])
  }

  lemma DepartKeepsInv(s: State, t: nat, to: Stat)
    requires ReadyOk(s) && t < |s.stat| && s.stat[t] == Ready && to != Ready
    ensures ReadyOk(Depart(s, t, to))
  {
    var p := s.prio[t];
    var r := Depart(s, t, to);
    var left := Without(s.lists[p], t);
    WithoutDistinct(s.lists[p], t);
    assert t in s.lists[p] <==> OnList(s, p, t);
    MarksFollow(s, p, left);
    if left != [] {
      StillMarked(s, p, left);
    }
    forall q, u: nat | 0 <= q < |r.lists|
      ensures u in r.lists[q] <==> OnList(r, q, u)
    {
      assert u in s.lists[q] <==> OnList(s, q, u);
    }
  }

  /** While a list stays in use its marks can stay. */
  lemma StillMarked(s: State, p: nat, left: seq<nat>)
    requires Sized(s) && Marked(s) && p < |s.lists| && s.lists[p] != [] && left != []
    ensures var r := s.(lists := s.lists[p := left]); Sized(r) && Marked(r)
  {
    var r := s.(lists := s.lists[p := left]);
    forall q: nat
      ensures Busy(r.lists, q) == Busy(s.lists, q)
    {
    }
  }

  /** A thread that is not ready may get any priority. */
  lemma ReprioritizedInv(s: State, t: nat, p: nat)
    requires ReadyOk(s) && t < |s.stat| && s.stat[t] != Ready && p < |s.lists|
    ensures ReadyOk(s.(prio := s.prio[t := p]))
  {
    var r := s.(prio := s.prio[t := p]);
    forall q, u: nat | 0 <= q < |r.lists|
      ensures u in r.lists[q] <==> OnList(r, q, u)
    {
      assert u in s.lists[q] <==> OnList(s, q, u);
    }
  }

  /** Changing the priority of a ready thread moves it to the end of the new list. */
  function ChangePriority(s: State, t: nat, p: nat): State
    requires Sized(s) && t < |s.stat| && p < |s.lists|
  {
    if s.stat[t] == Ready then MakeReady(Remove(s, t).(prio := s.prio[t := p]), t)
    else s.(prio := s.prio[t := p])
  }

  lemma ChangePriorityKeepsInv(s: State, t: nat, p: nat)
    requires ReadyOk(s) && t < |s.stat| && p < |s.lists|
    ensures ReadyOk(ChangePriority(s, t, p))
  {
    if s.stat[t] == Ready {
      var m := Depart(s, t, Suspend);
      DepartKeepsInv(s, t, Suspend);
      ReprioritizedInv(m, t, p);
      InsertKeepsInv(m.(prio := m.prio[t := p]), t);
      assert m.stat[t := Ready] == s.stat[t := Ready];
    } else {
      ReprioritizedInv(s, t, p);
    }
  }

  /** The running thread goes to the end of its list when it is ready and not alone there. */
  function Yield(s: State): State
    requires Sized(s)
  {
    var t: nat := s.current;
    if t < |s.stat| && s.stat[t] == Ready && |s.lists[s.prio[t]]| > 1 then
      s.(lists := s.lists[s.prio[t] := Without(s.lists[s.prio[t]], t) + [t]])
    else s
  }

  lemma YieldKeepsInv(s: State)
    requires ReadyOk(s)
    ensures ReadyOk(Yield(s))
  {
    var t: nat := s.current;
    var r := Yield(s);
    if t < |s.stat| && s.stat[t] == Ready && |s.lists[s.prio[t]]| > 1 {
      var p := s.prio[t];
      var rest: seq<nat> := Without(s.lists[p], t);
      WithoutDistinct(s.lists[p], t);
      DistinctSnoc(rest, t);
      StillMarked(s, p, rest + [t]);
      forall q, u: nat | 0 <= q < |r.lists|
        ensures u in r.lists[q] <==> OnList(r, q, u)
      {
        assert u in s.lists[q] <==> OnList(s, q, u);
        assert t in s.lists[p] <==> OnList(s, p, t);
      }
    }
  }

  // ---- choosing the next thread ----

  /** The most urgent priority according to the bitmap. */
  function Highest(s: State): int
    requires |s.table| == 32
  {
    if s.deep then
      var number := FindFirstSet(s.group) - 1;
      if 0 <= number < 32 then number * 8 + FindFirstSet(s.table[number]) - 1 else -1
    else FindFirstSet(s.group) - 1
  }

  /** The bitmap search finds the most urgent priority with a ready thread, whenever there is a ready thread. */
  lemma HighestIsMostUrgent(s: State, t: nat)
    requires ReadyOk(s) && t < |s.stat| && s.stat[t] == Ready
    ensures var h := Highest(s);
            && 0 <= h < |s.lists| && s.lists[h] != [] && h <= s.prio[t]
            && forall q :: 0 <= q < h ==> s.lists[q] == []
  {
    var p := s.prio[t];
    assert t in s.lists[p] <==> OnList(s, p, t);
    assert Busy(s.lists, p);
    FirstSetIsLowest(s.group);
    if s.deep {
      HighestDeep(s, p);
    } else {
      assert s.group[p];
      var h := Highest(s);
      forall q | 0 <= q < h
        ensures s.lists[q] == []
      {
        assert !s.group[q];
      }
    }
  }

  lemma HighestDeep(s: State, p: nat)
    requires Sized(s) && Marked(s) && s.deep && Busy(s.lists, p)
    ensures var h := Highest(s);
            && 0 <= h < |s.lists| && s.lists[h] != [] && h <= p
            && forall q :: 0 <= q < h ==> s.lists[q] == []
  {
    var number, low := DeepParts(s, p);
    var h := Highest(s);
    assert s.table[number][low] <==> low < 8 && Busy(s.lists, 8 * number + low);
    BusyNotBelow(s, p, number, low);
    forall q | 0 <= q < h
      ensures s.lists[q] == []
    {
      if s.lists[q] != [] {
        BusyNotBelow(s, q, number, low);
      }
    }
  }

  /** The group bit and the bit in its byte that the search finds. */
  lemma DeepParts(s: State, p: nat) returns (number: nat, low: nat)
    requires Sized(s) && Marked(s) && s.deep && Busy(s.lists, p)
    ensures number < 32 && s.group[number] && forall j :: 0 <= j < number ==> !s.group[j]
    ensures low < 32 && s.table[number][low] && forall j :: 0 <= j < low ==> !s.table[number][j]
    ensures Highest(s) == 8 * number + low
  {
    GroupMarked(s, p);
    FirstSetIsLowest(s.group);
    number := FindFirstSet(s.group) - 1;
    assert s.group[number] <==> exists b :: 0 <= b < 8 && s.table[number][b];
    FirstSetIsLowest(s.table[number]);
    low := FindFirstSet(s.table[number]) - 1;
  }

  lemma BusyNotBelow(s: State, q: nat, number: nat, low: nat)
    requires Sized(s) && Marked(s) && s.deep && Busy(s.lists, q) && number < 32 && low < 32
    requires forall j :: 0 <= j < number ==> !s.group[j]
    requires forall j :: 0 <= j < low ==> !s.table[number][j]
    requires low < 8
    ensures 8 * number + low <= q
  {
    GroupMarked(s, q);
    assert q == 8 * (q / 8) + q % 8;
    assert number <= q / 8;
    if q / 8 == number {
      assert low <= q % 8;
    }
  }

  lemma GroupMarked(s: State, p: nat)
    requires Sized(s) && Marked(s) && s.deep && Busy(s.lists, p)
    ensures s.group[p / 8] && s.table[p / 8][p % 8]
  {
    assert 8 * (p / 8) + p % 8 == p;
    assert s.table[p / 8][p % 8];
  }

  function Schedule(s: State): State
    requires |s.table| == 32
  {
    if s.lockNest == 0 && 0 <= Highest(s) < |s.lists| && s.lists[Highest(s)] != [] then
      s.(current := s.lists[Highest(s)][0])
    else s
  }

  /** With an idle thread always ready and the scheduler not locked, scheduling makes the head of the most
      urgent list that is not empty the running thread. */
  lemma ScheduleRunsMostUrgent(s: State, idle: nat)
    requires ReadyOk(s) && s.lockNest == 0 && idle < |s.stat| && s.stat[idle] == Ready
    ensures var r := Schedule(s);
            && ReadyOk(r) && r.current < |s.stat| && s.stat[r.current] == Ready
            && s.lists[s.prio[r.current]] != [] && s.lists[s.prio[r.current]][0] == r.current
            && forall t :: 0 <= t < |s.stat| && s.stat[t] == Ready ==> s.prio[r.current] <= s.prio[t]
  {
    HighestIsMostUrgent(s, idle);
    var h := Highest(s);
    var c := s.lists[h][0];
    assert c in s.lists[h] <==> OnList(s, h, c);
    forall t | 0 <= t < |s.stat| && s.stat[t] == Ready
      ensures h <= s.prio[t]
    {
      assert t in s.lists[s.prio[t]] <==> OnList(s, s.prio[t], t);
    }
  }

  // ---- waiting ----

  ghost predicate Waits(waits: seq<seq<nat>>, t: nat)
  {
    exists q: nat :: On(waits, q, t)
  }

  lemma WaitersKnown(s: State, q: nat)
    requires Inv(s) && q < |s.waits|
    ensures Known(s.waits[q], s.prio)
  {
    forall i | 0 <= i < |s.waits[q]|
      ensures s.waits[q][i] < |s.prio|
    {
      assert On(s.waits, q, s.waits[q][i]);
    }
  }

  /** The thread is taken off whatever wait list it is on. */
  function Unlinked(waits: seq<seq<nat>>, t: nat): (r: seq<seq<nat>>)
    ensures |r| == |waits| && forall q :: 0 <= q < |r| ==> r[q] == Without(waits[q], t)
  {
    seq(|waits|, q requires 0 <= q < |waits| => Without(waits[q], t))
  }

  /** A suspended thread becomes ready. */
  function Wake(s: State, t: nat): State
    requires Sized(s) && t < |s.stat|
  {
    MakeReady(s.(waits := Unlinked(s.waits, t)), t)
  }

  /** A thread starts with its first priority. */
  function Start(s: State, t: nat): State
    requires Sized(s) && t < |s.stat|
  {
    Wake(s.(prio := s.prio[t := s.base[t]]), t)
  }

  /** The running thread is suspended, if it is ready, and in any case linked into wait list `q`. */
  function Block(s: State, q: nat): State
    requires Inv(s) && s.current < |s.stat| && q < |s.waits|
  {
    var t := s.current;
    WaitersKnown(s, q);
    var m := if s.stat[t] == Ready then Depart(s, t, Suspend) else s;
    m.(waits := s.waits[q := Insert(s.waits[q], t, s.prio, s.flags[q])])
  }

  /** The thread leaves the list it is on, ready or waiting, and is closed. */
  function CloseThread(s: State, t: nat): State
    requires Sized(s) && t < |s.stat|
  {
    if s.stat[t] == Close then s
    else if s.stat[t] == Init then s.(stat := s.stat[t := Close])
    else Depart(s.(waits := Unlinked(s.waits, t)), t, Close)
  }

  /** A thread that is not suspended waits nowhere. */
  lemma NotWaiting(s: State, t: nat)
    requires Inv(s) && t < |s.stat| && s.stat[t] != Suspend
    ensures !Waits(s.waits, t)
  {
  }

  lemma UnlinkedOk(waits: seq<seq<nat>>, stat: seq<Stat>, t: nat, to: Stat)
    requires WaitsOk(waits, stat) && t < |stat|
    ensures WaitsOk(Unlinked(waits, t), stat[t := to]) && !Waits(Unlinked(waits, t), t)
  {
    var r := Unlinked(waits, t);
    forall q | 0 <= q < |r|
      ensures Distinct(r[q])
    {
      WithoutDistinct(waits[q], t);
    }
    forall q: nat, u: nat
      ensures On(r, q, u) <==> On(waits, q, u) && u != t
    {
      assert q < |r| ==> r[q] == Without(waits[q], t);
    }
  }

  /** A status other than that of a waiting thread may change. */
  lemma StatChanges(waits: seq<seq<nat>>, stat: seq<Stat>, t: nat, to: Stat)
    requires WaitsOk(waits, stat) && t < |stat| && !Waits(waits, t)
    ensures WaitsOk(waits, stat[t := to])
  {
    forall q: nat, u: nat | On(waits, q, u)
      ensures u != t
    {
    }
  }

  lemma DepartInv(s: State, t: nat, to: Stat)
    requires Inv(s) && t < |s.stat| && s.stat[t] == Ready && to != Ready
    ensures Inv(Depart(s, t, to))
  {
    DepartKeepsInv(s, t, to);
    NotWaiting(s, t);
    StatChanges(s.waits, s.stat, t, to);
  }

  lemma WakeInv(s: State, t: nat)
    requires Inv(s) && t < |s.stat| && s.stat[t] != Ready
    ensures Inv(Wake(s, t))
  {
    InsertKeepsInv(s.(waits := Unlinked(s.waits, t)), t);
    UnlinkedOk(s.waits, s.stat, t, Ready);
  }

  lemma StartInv(s: State, t: nat)
    requires Inv(s) && t < |s.stat| && s.stat[t] != Ready
    ensures Inv(Start(s, t))
  {
    ReprioritizedInv(s, t, s.base[t]);
    WakeInv(s.(prio := s.prio[t := s.base[t]]), t);
  }

  /** Removing a thread that is not ready touches no list, and its bits only if they are clear already. */
  lemma SuspendedLeaves(s: State, t: nat, to: Stat)
    requires ReadyOk(s) && t < |s.stat| && s.stat[t] != Ready && to != Ready
    ensures ReadyOk(Depart(s, t, to))
  {
    var p := s.prio[t];
    assert t in s.lists[p] <==> OnList(s, p, t);
    WithoutNone(s.lists[p], t);
    if s.lists[p] == [] {
      MarksFollow(s, p, []);
    } else {
      StillMarked(s, p, s.lists[p]);
    }
    var r := Depart(s, t, to);
    forall q, u: nat | 0 <= q < |r.lists|
      ensures u in r.lists[q] <==> OnList(r, q, u)
    {
      assert u in s.lists[q] <==> OnList(s, q, u);
    }
  }

  lemma CloseInv(s: State, t: nat)
    requires Inv(s) && t < |s.stat|
    ensures Inv(CloseThread(s, t))
  {
    if s.stat[t] == Init {
      NotWaiting(s, t);
      StatChanges(s.waits, s.stat, t, Close);
      RestedInv(s, t);
    } else if s.stat[t] != Close {
      var m := s.(waits := Unlinked(s.waits, t));
      UnlinkedOk(s.waits, s.stat, t, Close);
      if s.stat[t] == Ready {
        DepartKeepsInv(m, t, Close);
      } else {
        SuspendedLeaves(m, t, Close);
      }
    }
  }

  lemma RestedInv(s: State, t: nat)
    requires ReadyOk(s) && t < |s.stat| && s.stat[t] != Ready
    ensures ReadyOk(s.(stat := s.stat[t := Close]))
  {
    var r := s.(stat := s.stat[t := Close]);
    forall q, u: nat | 0 <= q < |r.lists|
      ensures u in r.lists[q] <==> OnList(r, q, u)
    {
      assert u in s.lists[q] <==> OnList(s, q, u);
    }
  }

  // ---- when a thread may block ----

  /** The caller is ready, or it has been suspended without waiting for anything. */
  ghost predicate MayBlock(s: State, t: nat)
  {
    t < |s.stat| && (s.stat[t] == Ready || (s.stat[t] == Suspend && !Waits(s.waits, t)))
  }

  lemma JoinedOk(waits: seq<seq<nat>>, stat: seq<Stat>, q: nat, t: nat, prio: seq<nat>, flag: Flag)
    requires WaitsOk(waits, stat) && q < |waits| && t < |stat| == |prio| && !Waits(waits, t) && Known(waits[q], prio)
    ensures WaitsOk(waits[q := Insert(waits[q], t, prio, flag)], stat[t := Suspend])
  {
    InsertMembers(waits[q], t, prio, flag);
    assert !On(waits, q, t);
    InsertDistinct(waits[q], t, prio, flag);
    var r := waits[q := Insert(waits[q], t, prio, flag)];
    forall k: nat, u: nat
      ensures On(r, k, u) <==> On(waits, k, u) || (k == q && u == t)
    {
    }
    forall k: nat, u: nat | On(waits, k, u)
      ensures u != t
    {
    }
  }

  lemma InsertDistinct(list: seq<nat>, t: nat, prio: seq<nat>, flag: Flag)
    requires Distinct(list) && t !in list && t < |prio| && Known(list, prio)
    ensures Distinct(Insert(list, t, prio, flag))
  {
    InsertPuts(list, t, prio, flag);
  }

  lemma BlockInv(s: State, q: nat)
    requires Inv(s) && q < |s.waits| && MayBlock(s, s.current)
    ensures Inv(Block(s, q))
  {
    var t := s.current;
    WaitersKnown(s, q);
    if s.stat[t] == Ready {
      DepartKeepsInv(s, t, Suspend);
      NotWaiting(s, t);
    } else {
      assert s.stat[t := Suspend] == s.stat;
    }
    JoinedOk(s.waits, s.stat, q, t, s.prio, s.flags[q]);
  }

  /** Linking in a thread that waits already puts it on two lists, or twice on one. */
  lemma LinkedTwice(s: State, q: nat)
    requires Inv(s) && s.current < |s.stat| && q < |s.waits| && !MayBlock(s, s.current)
    ensures !WaitsOk(Block(s, q).waits, Block(s, q).stat)
  {
    var t, r := s.current, Block(s, q);
    WaitersKnown(s, q);
    InsertMembers(s.waits[q], t, s.prio, s.flags[q]);
    assert On(r.waits, q, t);
    if s.stat[t] == Suspend {
      var k: nat :| On(s.waits, k, t);
      if k == q {
        InsertedAgain(s.waits[q], t, s.prio, s.flags[q]);
      } else {
        assert On(r.waits, k, t);
      }
    }
  }

  lemma InsertedAgain(list: seq<nat>, t: nat, prio: seq<nat>, flag: Flag)
    requires t in list && t < |prio| && Known(list, prio)
    ensures !Distinct(Insert(list, t, prio, flag))
  {
    var k, r := Place(list, t, prio, flag), Insert(list, t, prio, flag);
    var i :| 0 <= i < |list| && list[i] == t;
    InsertPuts(list, t, prio, flag);
    assert r[k] == t && r[if i < k then i else i + 1] == t;
  }

  /** Blocking keeps the lists right exactly when the caller is ready, or suspended without waiting. */
  lemma BlockExactly(s: State, q: nat)
    requires Inv(s) && s.current < |s.stat| && q < |s.waits|
    ensures Inv(Block(s, q)) <==> MayBlock(s, s.current)
  {
    if MayBlock(s, s.current) {
      BlockInv(s, q);
    } else {
      LinkedTwice(s, q);
    }
  }

  // ---- runs ----

  datatype Step =
    | Startup(t: nat)
    | SuspendIt(t: nat)
    | Resume(t: nat)
    | BlockOn(q: nat)
    | Timeout(t: nat)
    | Reprioritize(t: nat, p: nat)
    | YieldNow
    | CloseIt(t: nat)
    | Reschedule
    | Enter
    | Leave

  predicate Blocks(s: State, idle: nat, e: Step)
  {
    e.BlockOn? && s.current < |s.stat| && s.current != idle && e.q < |s.waits|
  }

  /** One kernel call; a call that its guards refuse changes nothing. The idle thread neither suspends nor
      blocks nor ends. */
  function Next(s: State, idle: nat, e: Step): State
    requires Inv(s)
  {
    match e
    case Startup(t) => if t < |s.stat| && s.stat[t] == Init then Start(s, t) else s
    case SuspendIt(t) => if t < |s.stat| && t != idle && s.stat[t] == Ready then Depart(s, t, Suspend) else s
    case Resume(t) => if t < |s.stat| && s.stat[t] == Suspend then Wake(s, t) else s
    case BlockOn(q) => if Blocks(s, idle, e) then Block(s, q) else s
    case Timeout(t) => if t < |s.stat| && s.stat[t] == Suspend then Schedule(Wake(s, t)) else s
    case Reprioritize(t, p) => if t < |s.stat| && p < |s.lists| then ChangePriority(s, t, p) else s
    case YieldNow => Yield(s)
    case CloseIt(t) => if t < |s.stat| && t != idle then CloseThread(s, t) else s
    case Reschedule => Schedule(s)
    case Enter => s.(lockNest := s.lockNest + 1)
    case Leave => if s.lockNest > 0 then s.(lockNest := s.lockNest - 1) else s
  }

  ghost predicate Safe(s: State, idle: nat, e: Step)
  {
    Blocks(s, idle, e) ==> MayBlock(s, s.current)
  }

  lemma ChangePriorityInv(s: State, t: nat, p: nat)
    requires Inv(s) && t < |s.stat| && p < |s.lists|
    ensures Inv(ChangePriority(s, t, p)) && ChangePriority(s, t, p).stat == s.stat
  {
    ChangePriorityKeepsInv(s, t, p);
    assert ChangePriority(s, t, p).stat == s.stat;
  }

  /** Who runs and how often the scheduler is locked does not matter to the lists. */
  lemma OnlyRuns(s: State, current: nat, lockNest: nat)
    requires Inv(s)
    ensures Inv(s.(current := current, lockNest := lockNest))
  {
    var r := s.(current := current, lockNest := lockNest);
    forall q, u: nat | 0 <= q < |r.lists|
      ensures u in r.lists[q] <==> OnList(r, q, u)
    {
      assert u in s.lists[q] <==> OnList(s, q, u);
    }
  }

  lemma ScheduleInv(s: State)
    requires Inv(s)
    ensures Inv(Schedule(s))
  {
    OnlyRuns(s, Schedule(s).current, s.lockNest);
  }

  lemma YieldInv(s: State)
    requires Inv(s)
    ensures Inv(Yield(s))
  {
    YieldKeepsInv(s);
  }

  lemma TimeoutInv(s: State, t: nat)
    requires Inv(s) && t < |s.stat| && s.stat[t] == Suspend
    ensures Inv(Schedule(Wake(s, t)))
  {
    WakeInv(s, t);
    ScheduleInv(Wake(s, t));
  }

  lemma OtherKeepsInv(s: State, idle: nat, e: Step)
    requires Inv(s) && !e.BlockOn?
    ensures Inv(Next(s, idle, e))
  {
    match e {
      case Startup(t) =>
        if t < |s.stat| && s.stat[t] == Init {
          StartInv(s, t);
        }
      case SuspendIt(t) =>
        if t < |s.stat| && t != idle && s.stat[t] == Ready {
          DepartInv(s, t, Suspend);
        }
      case Resume(t) =>
        if t < |s.stat| && s.stat[t] == Suspend {
          WakeInv(s, t);
        }
      case Timeout(t) =>
        if t < |s.stat| && s.stat[t] == Suspend {
          TimeoutInv(s, t);
        }
      case Reprioritize(t, p) =>
        if t < |s.stat| && p < |s.lists| {
          ChangePriorityInv(s, t, p);
        }
      case YieldNow => YieldInv(s);
      case CloseIt(t) =>
        if t < |s.stat| && t != idle {
          CloseInv(s, t);
        }
      case Reschedule => ScheduleInv(s);
      case Enter => OnlyRuns(s, s.current, s.lockNest + 1);
      case Leave => if s.lockNest > 0 { OnlyRuns(s, s.current, s.lockNest - 1); }
    }
  }

  /** Every kernel call keeps the agreement of threads, lists and bitmap, but for one: a thread that already
      waits, or has been closed, may not block. That one breaks it always. */
  lemma NextKeepsInv(s: State, idle: nat, e: Step)
    requires Inv(s)
    ensures Inv(Next(s, idle, e)) <==> Safe(s, idle, e)
  {
    if Blocks(s, idle, e) {
      BlockExactly(s, e.q);
    } else if !e.BlockOn? {
      OtherKeepsInv(s, idle, e);
    }
  }

  lemma NextKeepsIdle(s: State, idle: nat, e: Step)
    requires Inv(s) && idle < |s.stat| && s.stat[idle] == Ready
    ensures var r := Next(s, idle, e); |r.stat| == |s.stat| && r.stat[idle] == Ready
  {
  }

  /** No thread of the run blocks while it waits or is closed. */
  ghost predicate AllSafe(s: State, idle: nat, steps: seq<Step>)
    requires Inv(s)
    decreases |steps|
  {
    steps == [] ||
    (Safe(s, idle, steps[0]) &&
     (NextKeepsInv(s, idle, steps[0]);
      AllSafe(Next(s, idle, steps[0]), idle, steps[1..])))
  }

  ghost function Run(s: State, idle: nat, steps: seq<Step>): (r: State)
    requires Inv(s) && AllSafe(s, idle, steps)
    ensures Inv(r)
    decreases |steps|
  {
    if steps == [] then s
    else
      NextKeepsInv(s, idle, steps[0]);
      Run(Next(s, idle, steps[0]), idle, steps[1..])
  }

  lemma {:induction false} IdleStaysReady(s: State, idle: nat, steps: seq<Step>)
    requires Inv(s) && AllSafe(s, idle, steps) && idle < |s.stat| && s.stat[idle] == Ready
    ensures idle < |Run(s, idle, steps).stat| && Run(s, idle, steps).stat[idle] == Ready
    decreases |steps|
  {
    if steps != [] {
      NextKeepsInv(s, idle, steps[0]);
      NextKeepsIdle(s, idle, steps[0]);
      IdleStaysReady(Next(s, idle, steps[0]), idle, steps[1..]);
    }
  }

  /** After any run of kernel calls every ready thread is on the list of its current priority and nowhere else,
      and every other thread on no ready list and, if suspended, on at most one wait list, once. */
  lemma OneListEach(s: State, idle: nat, steps: seq<Step>, t: nat)
    requires Inv(s) && AllSafe(s, idle, steps) && t < |s.stat|
    ensures var m := Run(s, idle, steps);
            t < |m.stat| == |m.prio| ==>
              && (forall p: nat :: p < |m.lists| ==> (t in m.lists[p] <==> m.stat[t] == Ready && p == m.prio[t]))
              && (m.stat[t] != Suspend ==> !Waits(m.waits, t))
              && (forall q: nat, r: nat :: On(m.waits, q, t) && On(m.waits, r, t) ==> q == r)
              && forall q: nat :: q < |m.waits| ==> Distinct(m.waits[q])
  {
    var m := Run(s, idle, steps);
    if t < |m.stat| {
      forall p: nat | p < |m.lists|
        ensures t in m.lists[p] <==> m.stat[t] == Ready && p == m.prio[t]
      {
        assert t in m.lists[p] <==> OnList(m, p, t);
      }
    }
  }

  /** After any run of kernel calls, scheduling with the lock free runs a most urgent ready thread, which may
      block. */
  lemma AlwaysMostUrgent(s: State, idle: nat, steps: seq<Step>)
    requires Inv(s) && AllSafe(s, idle, steps) && idle < |s.stat| && s.stat[idle] == Ready
    ensures var m := Run(s, idle, steps);
            m.lockNest == 0 ==>
              var c := Schedule(m).current;
              && c < |m.stat| == |m.prio| && m.stat[c] == Ready && MayBlock(m, c)
              && forall t :: 0 <= t < |m.stat| && m.stat[t] == Ready ==> m.prio[c] <= m.prio[t]
  {
    IdleStaysReady(s, idle, steps);
    var m := Run(s, idle, steps);
    if m.lockNest == 0 {
      ScheduleRunsMostUrgent(m, idle);
    }
  }

  // ---- runs without the scheduler lock ----

  /** Steps after which the running thread may have stopped. */
  predicate Stops(e: Step) { e.SuspendIt? || e.BlockOn? || e.CloseIt? }

  /** The lock is never taken, and whoever stops calls the scheduler next, as the kernel's own calls do. */
  predicate Prompt(steps: seq<Step>)
    decreases |steps|
  {
    steps == [] ||
    (!steps[0].Enter? && (Stops(steps[0]) ==> |steps| > 1 && steps[1].Reschedule?) && Prompt(steps[1..]))
  }

  predicate CurrentReady(s: State)
  {
    s.current < |s.stat| && s.stat[s.current] == Ready
  }

  lemma GoesOn(s: State, idle: nat, e: Step)
    requires Inv(s) && idle < |s.stat| && s.stat[idle] == Ready && s.lockNest == 0 && !e.Enter?
    requires (CurrentReady(s) && !Stops(e)) || e.Reschedule?
    ensures CurrentReady(Next(s, idle, e))
  {
    if e.Reschedule? {
      ScheduleRunsMostUrgent(s, idle);
    } else if e.Timeout? && e.t < |s.stat| && s.stat[e.t] == Suspend {
      WakeInv(s, e.t);
      ScheduleRunsMostUrgent(Wake(s, e.t), idle);
    } else if e.Reprioritize? && e.t < |s.stat| && e.p < |s.lists| {
      ChangePriorityInv(s, e.t, e.p);
    }
  }

  lemma NestStays(s: State, idle: nat, e: Step)
    requires Inv(s) && s.lockNest == 0 && !e.Enter?
    ensures Next(s, idle, e).lockNest == 0
  {
  }

  /** Without the scheduler lock no thread ever blocks while it waits: every run of prompt calls is safe. */
  lemma {:induction false} PromptRunsAreSafe(s: State, idle: nat, steps: seq<Step>)
    requires Inv(s) && idle < |s.stat| && s.stat[idle] == Ready && s.lockNest == 0 && Prompt(steps)
    requires CurrentReady(s) || (steps != [] && steps[0].Reschedule?)
    ensures AllSafe(s, idle, steps)
    decreases |steps|
  {
    if steps != [] {
      var e := steps[0];
      NextKeepsInv(s, idle, e);
      NextKeepsIdle(s, idle, e);
      NestStays(s, idle, e);
      if !Stops(e) {
        GoesOn(s, idle, e);
      }
      PromptRunsAreSafe(Next(s, idle, e), idle, steps[1..]);
    }
  }

  // ---- blocking under the scheduler lock ----

  /** The idle thread, a more urgent one and two wait lists, before anything has started. */
  function TwoThreads(): State
  {
    State(false, [[], []], Zero(), seq(32, _ => Zero()), [1, 0], [1, 0], [Init, Init], 0, 0, [Fifo, Fifo], [[], []])
  }

  /** A thread that blocks with the scheduler locked runs on although it waits; when it blocks again it stands on
      two lists. */
  lemma BlockedTwiceUnderLock(s: State, idle: nat, q: nat, r: nat)
    requires Inv(s) && CurrentReady(s) && s.current != idle && s.lockNest > 0
    requires q < |s.waits| && r < |s.waits| && q != r
    ensures var m := Next(s, idle, BlockOn(q));
            && Inv(m) && Next(m, idle, Reschedule) == m && !Safe(m, idle, BlockOn(r))
            && var n := Next(m, idle, BlockOn(r));
               !Inv(n) && q < |n.waits| && r < |n.waits| && s.current in n.waits[q] && s.current in n.waits[r]
  {
    var t, m := s.current, Next(s, idle, BlockOn(q));
    NextKeepsInv(s, idle, BlockOn(q));
    WaitersKnown(s, q);
    WaitersKnown(m, r);
    InsertMembers(s.waits[q], t, s.prio, s.flags[q]);
    assert On(m.waits, q, t);
    NextKeepsInv(m, idle, BlockOn(r));
    InsertMembers(m.waits[r], t, m.prio, m.flags[r]);
  }

  lemma TwoThreadsInv()
    ensures Inv(TwoThreads())
  {
  }

  ghost predicate Locked(s: State, t: nat)
  {
    CurrentReady(s) && s.current == t && s.lockNest > 0 && |s.waits| == 2
  }

  /** Such a state is reached from the start: both threads start, the urgent one runs and takes the lock. */
  lemma LockedStateReached(steps: seq<Step>)
    requires steps == [Startup(0), Startup(1), Reschedule, Enter]
    ensures Inv(TwoThreads()) && AllSafe(TwoThreads(), 0, steps) && Locked(Run(TwoThreads(), 0, steps), 1)
  {
    TwoThreadsInv();
    FromTheStart(TwoThreads(), steps);
  }

  lemma FromTheStart(s0: State, steps: seq<Step>)
    requires Inv(s0) && s0.base == s0.prio == [1, 0] && s0.stat == [Init, Init] && s0.lockNest == 0 && |s0.waits| == 2
    requires steps == [Startup(0), Startup(1), Reschedule, Enter]
    ensures AllSafe(s0, 0, steps) && Locked(Run(s0, 0, steps), 1)
  {
    var s1 := Next(s0, 0, Startup(0));
    Started(s0, 0);
    var s2 := Next(s1, 0, Startup(1));
    Started(s1, 1);
    UrgentRuns(s2);
    var s3 := Next(s2, 0, Reschedule);
    OtherKeepsInv(s2, 0, Reschedule);
    var s4 := Next(s3, 0, Enter);
    assert Locked(s4, 1);
    FourSteps(s0, s1, s2, s3, s4, 0, steps);
  }

  lemma Started(s: State, t: nat)
    requires Inv(s) && t < |s.stat| && s.stat[t] == Init && s.base == s.prio
    ensures var r := Next(s, 0, Startup(t));
            && Inv(r) && r.base == r.prio == s.prio && r.stat == s.stat[t := Ready] && r.lockNest == s.lockNest
            && |r.waits| == |s.waits|
  {
    OtherKeepsInv(s, 0, Startup(t));
  }

  lemma UrgentRuns(s: State)
    requires Inv(s) && s.lockNest == 0 && s.prio == [1, 0] && s.stat == [Ready, Ready]
    ensures Schedule(s).current == 1
  {
    ScheduleRunsMostUrgent(s, 0);
    var c := Schedule(s).current;
    assert s.stat[1] == Ready && s.prio[c] <= s.prio[1];
  }

  lemma FourSteps(s0: State, s1: State, s2: State, s3: State, s4: State, idle: nat, steps: seq<Step>)
    requires |steps| == 4
    requires Inv(s0) && Safe(s0, idle, steps[0]) && s1 == Next(s0, idle, steps[0]) && Inv(s1)
    requires Safe(s1, idle, steps[1]) && s2 == Next(s1, idle, steps[1]) && Inv(s2)
    requires Safe(s2, idle, steps[2]) && s3 == Next(s2, idle, steps[2]) && Inv(s3)
    requires Safe(s3, idle, steps[3]) && s4 == Next(s3, idle, steps[3])
    ensures AllSafe(s0, idle, steps) && Run(s0, idle, steps) == s4
  {
    NextKeepsInv(s3, idle, steps[3]);
    var c, b, a := steps[3..], steps[2..], steps[1..];
    assert a[1..] == b && b[1..] == c && c[1..] == [];
    assert AllSafe(s4, idle, []) && Run(s4, idle, []) == s4;
    assert AllSafe(s3, idle, c) && Run(s3, idle, c) == s4;
    assert AllSafe(s2, idle, b) && Run(s2, idle, b) == s4;
    assert AllSafe(s1, idle, a) && Run(s1, idle, a) == s4;
  }

  // ---- the table in place ----

  class ReadyTable {
    const deep: bool
    const flags: seq<Flag>
    const base: seq<nat>
    var lists: seq<seq<nat>>
    var group: Word
    var table: seq<Word>
    var prio: seq<nat>
    var stat: seq<Stat>
    var current: nat
    var lockNest: nat
    var waits: seq<seq<nat>>

    function Snapshot(): State
      reads this
    {
      State(deep, lists, group, table, base, prio, stat, current, lockNest, flags, waits)
    }

    /** All lists empty, all threads initialised and none started. */
    constructor (deep: bool, priorities: nat, prio: seq<nat>, flags: seq<Flag>)
      requires priorities <= (if deep then 256 else 32) && forall t :: 0 <= t < |prio| ==> prio[t] < priorities
      ensures Inv(Snapshot()) && this.prio == prio && |lists| == priorities && this.flags == flags
      ensures stat == seq(|prio|, _ => Init)
    {
      this.deep, this.prio, this.base, this.flags := deep, prio, prio, flags;
      lists := seq(priorities, _ => []);
      group, table := Zero(), seq(32, _ => Zero());
      stat := seq(|prio|, _ => Init);
      current, lockNest := 0, 0;
      waits := seq(|flags|, _ => []);
    }

    method InsertThread(t: nat)
      requires Sized(Snapshot()) && t < |stat|
      modifies this
      ensures Snapshot() == MakeReady(old(Snapshot()), t)
    {
      var p := prio[t];
      stat := stat[t := Ready];
      lists := lists[p := lists[p] + [t]];
      if deep {
        table := table[p / 8 := table[p / 8][p % 8 := true]];
        group := group[p / 8 := true];
      } else {
        group := group[p := true];
      }
    }

    method RemoveThread(t: nat)
      requires Sized(Snapshot()) && t < |stat|
      modifies this
      ensures Snapshot() == Remove(old(Snapshot()), t)
    {
      var p := prio[t];
      lists := lists[p := Without(lists[p], t)];
      if lists[p] == [] {
        if deep {
          table := table[p / 8 := table[p / 8][p % 8 := false]];
          if !AnyBit(table[p / 8], 0, 32) {
            group := group[p / 8 := false];
          }
        } else {
          group := group[p := false];
        }
      }
    }

    /** A ready thread is suspended; anything else is refused. */
    method SuspendThread(t: nat) returns (ok: bool)
      requires Inv(Snapshot()) && t < |stat|
      modifies this
      ensures Inv(Snapshot()) && ok == (old(stat)[t] == Ready)
      ensures Snapshot() == if ok then Depart(old(Snapshot()), t, Suspend) else old(Snapshot())
    {
      if stat[t] != Ready {
        return false;
      }
      DepartInv(Snapshot(), t, Suspend);
      RemoveThread(t);
      stat := stat[t := Suspend];
      return true;
    }

    /** The running thread joins wait list `q`, whatever becomes of suspending it. */
    method BlockThread(q: nat)
      requires Inv(Snapshot()) && current < |stat| && q < |waits|
      modifies this
      ensures Snapshot() == Block(old(Snapshot()), q)
      ensures Inv(Snapshot()) <==> old(MayBlock(Snapshot(), current))
    {
      BlockExactly(Snapshot(), q);
      ghost var was := Snapshot();
      WaitersKnown(Snapshot(), q);
      var ok := SuspendThread(current);
      var n := |waits[q]|;
      if flags[q] == Prio {
        n := FindSlot(waits[q], prio, prio[current]);
      }
      waits := waits[q := waits[q][..n] + [current] + waits[q][n..]];
    }

    /** The thread is taken off its wait list, if it is on one. */
    method UnlinkWaiter(t: nat)
      modifies this`waits
      ensures waits == Unlinked(old(waits), t)
    {
      var q := 0;
      while q < |waits|
        invariant q <= |waits| == |old(waits)|
        invariant forall r :: 0 <= r < q ==> waits[r] == Without(old(waits)[r], t)
        invariant forall r :: q <= r < |waits| ==> waits[r] == old(waits)[r]
      {
        waits := waits[q := Without(waits[q], t)];
        q := q + 1;
      }
    }

    /** A suspended thread becomes ready; anything else is refused. */
    method ResumeThread(t: nat) returns (ok: bool)
      requires Inv(Snapshot()) && t < |stat|
      modifies this
      ensures Inv(Snapshot()) && ok == (old(stat)[t] == Suspend)
      ensures Snapshot() == if ok then Wake(old(Snapshot()), t) else old(Snapshot())
    {
      if stat[t] != Suspend {
        return false;
      }
      WakeInv(Snapshot(), t);
      UnlinkWaiter(t);
      InsertThread(t);
      return true;
    }

    /** A thread that has not run yet becomes ready with its first priority. */
    method StartThread(t: nat)
      requires Inv(Snapshot()) && t < |stat| && stat[t] == Init
      modifies this
      ensures Inv(Snapshot()) && Snapshot() == Start(old(Snapshot()), t)
    {
      StartInv(Snapshot(), t);
      prio := prio[t := base[t]];
      stat := stat[t := Suspend];
      UnlinkWaiter(t);
      InsertThread(t);
    }

    /** A thread is closed: off its list, and not scheduled again. */
    method DetachThread(t: nat)
      requires Inv(Snapshot()) && t < |stat|
      modifies this
      ensures Inv(Snapshot()) && Snapshot() == CloseThread(old(Snapshot()), t)
    {
      CloseInv(Snapshot(), t);
      if stat[t] == Close {
        return;
      }
      if stat[t] != Init {
        UnlinkWaiter(t);
        RemoveThread(t);
      }
      stat := stat[t := Close];
    }

    method SetPriority(t: nat, p: nat)
      requires Inv(Snapshot()) && t < |stat| && p < |lists|
      modifies this
      ensures Inv(Snapshot()) && Snapshot() == ChangePriority(old(Snapshot()), t, p)
    {
      ChangePriorityInv(Snapshot(), t, p);
      if stat[t] == Ready {
        RemoveThread(t);
        prio := prio[t := p];
        InsertThread(t);
      } else {
        prio := prio[t := p];
      }
    }

    /** With the lock free, the head of the list the bitmap points at becomes the running thread. */
    method Reschedule(ghost idle: nat)
      requires Inv(Snapshot()) && idle < |stat| && stat[idle] == Ready
      modifies this
      ensures Inv(Snapshot()) && Snapshot() == Schedule(old(Snapshot()))
    {
      ScheduleInv(Snapshot());
      if lockNest == 0 {
        HighestIsMostUrgent(Snapshot(), idle);
        var highest := FindHighest();
        current := lists[highest][0];
      }
    }

    method FindHighest() returns (highest: int)
      requires |table| == 32 && 0 <= Highest(Snapshot())
      ensures highest == Highest(Snapshot())
    {
      if deep {
        var number := FindFirstSet(group) - 1;
        highest := number * 8 + FindFirstSet(table[number]) - 1;
      } else {
        highest := FindFirstSet(group) - 1;
      }
    }
  }
}
