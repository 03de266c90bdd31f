/** The list of threads that wait on a kernel object, and how many threads are in some phase of a call. */
module WaitList {

  datatype Flag = Fifo | Prio

  predicate Known(list: seq<nat>, prio: seq<nat>)
  {
    forall i :: 0 <= i < |list| ==> list[i] < |prio|
  }

  /** First position from `i` on whose thread is less urgent (a larger number) than `mine`. */
  function Slot(list: seq<nat>, prio: seq<nat>, mine: nat, i: nat): (k: nat)
    requires i <= |list| && Known(list, prio)
    ensures i <= k <= |list|
    ensures forall j :: i <= j < k ==> prio[list[j]] <= mine
    ensures k < |list| ==> mine < prio[list[k]]
    decreases |list| - i
  {
    if i == |list| || mine < prio[list[i]] then i else Slot(list, prio, mine, i + 1)
  }

  function Place(list: seq<nat>, t: nat, prio: seq<nat>, flag: Flag): (k: nat)
    requires t < |prio| && Known(list, prio)
    ensures k <= |list|
  {
    if flag == Fifo then |list| else Slot(list, prio, prio[t], 0)
  }

  /** Thread `t` joins: at the end, or before the first less urgent thread. */
  function Insert(list: seq<nat>, t: nat, prio: seq<nat>, flag: Flag): seq<nat>
    requires t < |prio| && Known(list, prio)
  {
    var k := Place(list, t, prio, flag);
    list[..k] + [t] + list[k..]
  }

  /** `r` is `list` with `t` put in at `k`. */
  predicate PutIn(list: seq<nat>, t: nat, k: nat, r: seq<nat>)
  {
    && k <= |list| && |r| == |list| + 1 && r[k] == t
    && (forall i :: 0 <= i < k ==> r[i] == list[i])
    && forall i :: k < i < |r| ==> r[i] == list[i - 1]
  }

  lemma InsertPuts(list: seq<nat>, t: nat, prio: seq<nat>, flag: Flag)
    requires t < |prio| && Known(list, prio)
    ensures PutIn(list, t, Place(list, t, prio, flag), Insert(list, t, prio, flag))
  {
  }

  predicate Sorted(list: seq<nat>, prio: seq<nat>)
  {
    && Known(list, prio)
    && forall i, j :: 0 <= i < j < |list| ==> prio[list[i]] <= prio[list[j]]
  }

  predicate Distinct<T(==)>(s: seq<T>)
  {
    forall i, j :: 0 <= i < j < |s| ==> s[i] != s[j]
  }

  lemma PutInMembers(list: seq<nat>, t: nat, k: nat, r: seq<nat>)
    requires PutIn(list, t, k, r)
    ensures forall u :: u in r <==> u in list || u == t
    ensures Distinct(list) && t !in list ==> Distinct(r)
  {
    forall u | u in list
      ensures u in r
    {
      var i :| 0 <= i < |list| && list[i] == u;
      assert r[if i < k then i else i + 1] == u;
    }
  }

  /** Who waits after `t` joined. */
  lemma InsertMembers(list: seq<nat>, t: nat, prio: seq<nat>, flag: Flag)
    requires t < |prio| && Known(list, prio)
    ensures Known(Insert(list, t, prio, flag), prio)
    ensures forall u :: u in Insert(list, t, prio, flag) <==> u in list || u == t
    ensures Distinct(list) && t !in list ==> Distinct(Insert(list, t, prio, flag))
  {
    InsertPuts(list, t, prio, flag);
    PutInMembers(list, t, Place(list, t, prio, flag), Insert(list, t, prio, flag));
  }

  /** A priority list stays sorted, first come first served among equals: everybody at least as urgent as the
      newcomer stands before it, everybody less urgent behind it, and the others keep their order. */
  lemma PrioInsert(list: seq<nat>, t: nat, prio: seq<nat>)
    requires t < |prio| && Sorted(list, prio)
    ensures var k, r := Place(list, t, prio, Prio), Insert(list, t, prio, Prio);
            && Sorted(r, prio) && PutIn(list, t, k, r)
            && (forall j :: 0 <= j < k ==> prio[list[j]] <= prio[t])
            && (forall j :: k <= j < |list| ==> prio[t] < prio[list[j]])
  {
    InsertPuts(list, t, prio, Prio);
    PutInSorted(list, t, Place(list, t, prio, Prio), Insert(list, t, prio, Prio), prio);
  }

  /** `r` is `list` with `t` in its place in line: last where first come is first served, otherwise behind
      everybody at least as urgent and before the first who is less so. */
  ghost predicate InLine(list: seq<nat>, t: nat, prio: seq<nat>, flag: Flag, r: seq<nat>)
    requires t < |prio| && Known(list, prio)
  {
    exists k: nat ::
      && PutIn(list, t, k, r) && (flag == Fifo ==> k == |list|)
      && (flag == Prio ==>
           && (forall j :: 0 <= j < k ==> prio[list[j]] <= prio[t])
           && (k < |list| ==> prio[t] < prio[list[k]]))
  }

  lemma JoinsInLine(list: seq<nat>, t: nat, prio: seq<nat>, flag: Flag)
    requires t < |prio| && Known(list, prio)
    ensures InLine(list, t, prio, flag, Insert(list, t, prio, flag))
  {
    InsertPuts(list, t, prio, flag);
  }

  /** A first-come list gets the newcomer last. */
  lemma FifoInsert(list: seq<nat>, t: nat, prio: seq<nat>)
    requires t < |prio| && Known(list, prio)
    ensures Insert(list, t, prio, Fifo) == list + [t]
  {
  }

  /** `r` is `list` without `t`, the others in their order. */
  ghost predicate LeftLine(list: seq<nat>, t: nat, r: seq<nat>)
  {
    if t in list then exists k :: 0 <= k < |list| && list[k] == t && r == list[..k] + list[k + 1..] else r == list
  }

  lemma LeavesLine(list: seq<nat>, t: nat)
    requires Distinct(list)
    ensures LeftLine(list, t, Without(list, t))
  {
    if t in list {
      var k :| 0 <= k < |list| && list[k] == t;
      WithoutAt(list, k);
    } else {
      WithoutNone(list, t);
    }
  }

  lemma PutInSorted(list: seq<nat>, t: nat, k: nat, r: seq<nat>, prio: seq<nat>)
    requires PutIn(list, t, k, r) && t < |prio| && Sorted(list, prio)
    requires forall j :: 0 <= j < k ==> prio[list[j]] <= prio[t]
    requires k < |list| ==> prio[t] < prio[list[k]]
    ensures Sorted(r, prio) && forall j :: k <= j < |list| ==> prio[t] < prio[list[j]]
  {
  }

  /** The scan for the first less urgent thread. */
  method FindSlot(list: seq<nat>, prio: seq<nat>, mine: nat) returns (n: nat)
    requires Known(list, prio)
    ensures n == Slot(list, prio, mine, 0)
  {
    n := 0;
    while n < |list| && prio[list[n]] <= mine
      invariant n <= |list| && Slot(list, prio, mine, 0) == Slot(list, prio, mine, n)
    {
      n := n + 1;
    }
  }

  /** The suspend list of an object. */
  class Waiters {
    var list: seq<nat>

    constructor ()
      ensures list == []
    {
      list := [];
    }

    method Suspend(t: nat, prio: seq<nat>, flag: Flag)
      requires t < |prio| && Known(list, prio)
      modifies this
      ensures list == Insert(old(list), t, prio, flag) && InLine(old(list), t, prio, flag, list)
    {
      JoinsInLine(list, t, prio, flag);
      if flag == Fifo {
        list := list + [t];
        return;
      }
      var n := FindSlot(list, prio, prio[t]);
      list := list[..n] + [t] + list[n..];
    }
  }

  // ---- lists without repetition ----

  ghost function Elems(s: seq<nat>): set<nat> { set x | x in s }

  lemma DistinctTail(s: seq<nat>)
    requires Distinct(s) && s != []
    ensures Distinct(s[1..]) && s[0] in Elems(s) && Elems(s[1..]) == Elems(s) - {s[0]}
  {
    var head, rest := s[0], s[1..];
    assert s == [head] + rest;
    assert head !in rest;
  }

  lemma DistinctCons(c: nat, s: seq<nat>)
    requires Distinct(s) && c !in s
    ensures Distinct([c] + s) && Elems([c] + s) == Elems(s) + {c}
  {
  }

  lemma DistinctSnoc(s: seq<nat>, c: nat)
    requires Distinct(s) && c !in s
    ensures Distinct(s + [c]) && Elems(s + [c]) == Elems(s) + {c}
  {
  }

  lemma DistinctJoin(a: seq<nat>, b: seq<nat>)
    requires Distinct(a) && Distinct(b) && Elems(a) !! Elems(b)
    ensures Distinct(a + b) && Elems(a + b) == Elems(a) + Elems(b)
  {
    var r := a + b;
    forall i, j | 0 <= i < j < |r|
      ensures r[i] != r[j]
    {
      if i < |a| <= j {
        assert a[i] in Elems(a) && b[j - |a|] in Elems(b);
      }
    }
  }

  function Reverse<T>(s: seq<T>): (r: seq<T>)
    ensures |r| == |s|
  {
    if s == [] then [] else Reverse(s[1..]) + [s[0]]
  }

  lemma {:induction false} ReverseAppend<T>(s: seq<T>, x: T)
    ensures Reverse(s + [x]) == [x] + Reverse(s)
  {
    if s == [] {
      assert [x][1..] == [];
    } else {
      ReverseAppend(s[1..], x);
      assert (s + [x])[1..] == s[1..] + [x];
    }
  }

  lemma {:induction false} ReverseHas(s: seq<nat>)
    requires Distinct(s)
    ensures Distinct(Reverse(s)) && Elems(Reverse(s)) == Elems(s)
  {
    if s != [] {
      DistinctTail(s);
      ReverseHas(s[1..]);
      assert s[0] !in Elems(s[1..]);
      DistinctSnoc(Reverse(s[1..]), s[0]);
    }
  }

  // ---- lists and phases ----

  predicate AllWait<P>(list: seq<nat>, phase: seq<P>, kind: P -> bool)
  {
    forall i :: 0 <= i < |list| ==> list[i] < |phase| && kind(phase[list[i]])
  }

  /** The list holds exactly the threads in the given kind of phase, each once. */
  ghost predicate Lists<P>(list: seq<nat>, phase: seq<P>, kind: P -> bool)
  {
    && Distinct(list) && AllWait(list, phase, kind)
    && forall t :: 0 <= t < |phase| && kind(phase[t]) ==> t in list
  }

  /** Thread `t` leaves a wait list. */
  function Without<T(==,!new)>(list: seq<T>, t: T): (r: seq<T>)
    ensures forall u :: u in r <==> u in list && u != t
  {
    if list == [] then [] else (if list[0] == t then [] else [list[0]]) + Without(list[1..], t)
  }

  lemma AppendNothing(s: seq<nat>)
    ensures s + [] == s
  {
  }

  lemma WithoutFirst<T(!new)>(s: seq<T>, t: T)
    requires s != []
    ensures Without(s, t) == if s[0] == t then Without(s[1..], t) else [s[0]] + Without(s[1..], t)
  {
    assert [] + Without(s[1..], t) == Without(s[1..], t);
  }

  lemma {:induction false} WithoutNone<T(!new)>(s: seq<T>, t: T)
    requires t !in s
    ensures Without(s, t) == s
  {
    if s != [] {
      WithoutNone(s[1..], t);
    }
  }

  lemma WithoutHead<T(!new)>(s: seq<T>)
    requires s != [] && Distinct(s)
    ensures Without(s, s[0]) == s[1..] && s[0] !in s[1..]
  {
    WithoutNone(s[1..], s[0]);
    WithoutFirst(s, s[0]);
  }

  /** Of a list without repetitions one place goes. */
  lemma {:induction false} WithoutAt<T(!new)>(s: seq<T>, k: nat)
    requires Distinct(s) && k < |s|
    ensures Without(s, s[k]) == s[..k] + s[k + 1..]
  {
    if k == 0 {
      WithoutHead(s);
      assert s[..0] + s[1..] == s[1..];
    } else {
      var rest := s[1..];
      WithoutFirst(s, s[k]);
      WithoutAt(rest, k - 1);
      ShiftedCut(s, k);
    }
  }

  lemma ShiftedCut<T>(s: seq<T>, k: nat)
    requires 0 < k < |s|
    ensures s[1..][k - 1] == s[k]
    ensures [s[0]] + (s[1..][..k - 1] + s[1..][k..]) == s[..k] + s[k + 1..]
  {
  }

  lemma {:induction false} WithoutDistinct<T(!new)>(list: seq<T>, t: T)
    requires Distinct(list)
    ensures Distinct(Without(list, t))
  {
    if list != [] {
      WithoutDistinct(list[1..], t);
      var rest := Without(list[1..], t);
      assert list[0] !in list[1..];
      assert list[0] !in rest;
    }
  }

  lemma ListsOther<P>(list: seq<nat>, phase: seq<P>, kind: P -> bool, t: nat, p: P)
    requires Lists(list, phase, kind) && t < |phase| && !kind(phase[t]) && !kind(p)
    ensures Lists(list, phase[t := p], kind)
  {
  }

  lemma ListsJoin<P>(list: seq<nat>, phase: seq<P>, kind: P -> bool, t: nat, p: P, prio: seq<nat>, flag: Flag)
    requires Lists(list, phase, kind) && t < |phase| == |prio| && !kind(phase[t]) && kind(p)
    ensures Known(list, prio) && Lists(Insert(list, t, prio, flag), phase[t := p], kind)
  {
    InsertMembers(list, t, prio, flag);
    var r, now := Insert(list, t, prio, flag), phase[t := p];
    forall i | 0 <= i < |r|
      ensures r[i] < |now| && kind(now[r[i]])
    {
      assert r[i] in r;
    }
  }

  lemma ListsPush<P>(list: seq<nat>, phase: seq<P>, kind: P -> bool, t: nat, p: P)
    requires Lists(list, phase, kind) && t < |phase| && !kind(phase[t]) && kind(p)
    ensures Lists([t] + list, phase[t := p], kind)
  {
    DistinctCons(t, list);
    var r := [t] + list;
    forall u | u in list
      ensures u in r
    {
    }
  }

  lemma ListsHead<P>(list: seq<nat>, phase: seq<P>, kind: P -> bool, p: P)
    requires Lists(list, phase, kind) && list != [] && !kind(p)
    ensures list[0] < |phase| && Lists(list[1..], phase[list[0] := p], kind)
  {
    var r, now := list[1..], phase[list[0] := p];
    forall t | 0 <= t < |now| && kind(now[t])
      ensures t in r
    {
      assert t in list;
    }
  }

  lemma ListsWithout<P>(list: seq<nat>, phase: seq<P>, kind: P -> bool, t: nat, p: P)
    requires Lists(list, phase, kind) && t < |phase| && !kind(p)
    ensures Lists(Without(list, t), phase[t := p], kind)
  {
    WithoutDistinct(list, t);
    var r, now := Without(list, t), phase[t := p];
    forall i | 0 <= i < |r|
      ensures r[i] < |now| && kind(now[r[i]])
    {
      assert r[i] in list;
    }
  }

  // ---- counting ----

  function Count<T>(s: seq<T>, p: T -> bool): nat
  {
    if s == [] then 0 else (if p(s[0]) then 1 else 0) + Count(s[1..], p)
  }

  lemma {:induction false} CountUpdate<T>(s: seq<T>, p: T -> bool, i: nat, x: T)
    requires i < |s|
    ensures Count(s[i := x], p) == Count(s, p) - (if p(s[i]) then 1 else 0) + (if p(x) then 1 else 0)
  {
    var r := s[i := x];
    if i == 0 {
      assert r[1..] == s[1..];
    } else {
      assert r[1..] == s[1..][i - 1 := x];
      CountUpdate(s[1..], p, i - 1, x);
    }
  }

  lemma {:induction false} CountSome<T>(s: seq<T>, p: T -> bool, i: nat)
    requires i < |s| && p(s[i])
    ensures Count(s, p) > 0
  {
    if 0 < i {
      CountSome(s[1..], p, i - 1);
    }
  }

  lemma {:induction false} CountedSomewhere<T>(s: seq<T>, p: T -> bool)
    requires Count(s, p) > 0
    ensures exists i :: 0 <= i < |s| && p(s[i])
  {
    if !p(s[0]) {
      CountedSomewhere(s[1..], p);
      var i :| 0 <= i < |s| - 1 && p(s[1..][i]);
      assert p(s[i + 1]);
    }
  }

  /** Phases that change nothing but entries outside `p`, before and after, do not change the count. */
  lemma {:induction false} CountSame<T>(s: seq<T>, r: seq<T>, p: T -> bool)
    requires |s| == |r| && forall i :: 0 <= i < |s| ==> p(s[i]) == p(r[i])
    ensures Count(s, p) == Count(r, p)
  {
    if s != [] {
      CountSame(s[1..], r[1..], p);
    }
  }

  /** Distinct numbers below `n` are at most `n` many. */
  lemma {:induction false} Pigeonhole(s: seq<nat>, n: nat)
    requires Distinct(s) && forall i :: 0 <= i < |s| ==> s[i] < n
    ensures |s| <= n
    decreases n
  {
    if s == [] {
      return;
    }
    assert s[0] < n;
    if n - 1 in s {
      var i :| 0 <= i < |s| && s[i] == n - 1;
      var r := s[..i] + s[i + 1..];
      forall j | 0 <= j < |r|
        ensures r[j] == if j < i then s[j] else s[j + 1]
      {
      }
      Pigeonhole(r, n - 1);
    } else {
      Pigeonhole(s, n - 1);
    }
  }

  // ---- order over runs ----

  /** If each step is first in, first out, so are two in a row. */
  lemma FifoGlue<T>(a: seq<T>, p: seq<T>, ps: seq<T>, k: seq<T>, b: seq<T>, ks: seq<T>, c: seq<T>)
    requires a + p == k + b && b + ps == ks + c
    ensures a + (p + ps) == (k + ks) + c
  {
    assert a + (p + ps) == (a + p) + ps;
    assert (k + b) + ps == k + (b + ps);
    assert k + (ks + c) == (k + ks) + c;
  }
}
