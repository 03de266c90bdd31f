/** Time slicing among the threads of the most urgent ready priority (os/clock.c, os/thread.c). */
module RoundRobin {

  /** The ready list of that priority, its head running, and every thread's remaining and full slice. */
  datatype State = State(queue: seq<nat>, remaining: seq<nat>, slice: seq<nat>)

  ghost predicate Valid(s: State)
  {
    && s.queue != [] && |s.remaining| == |s.slice|
    && (forall i :: 0 <= i < |s.queue| ==> s.queue[i] < |s.slice| && 1 <= s.slice[s.queue[i]] && 1 <= s.remaining[s.queue[i]])
    && (forall i, j :: 0 <= i < j < |s.queue| ==> s.queue[i] != s.queue[j])
  }

  /** Yield: the head goes to the end of the list, unless it is alone. */
  function Rotate(q: seq<nat>): seq<nat>
    requires q != []
  {
    if |q| > 1 then q[1..] + [q[0]] else q
  }

  /** One clock tick. */
  function Tick(s: State): (r: State)
    requires s.queue != [] && s.queue[0] < |s.remaining| == |s.slice| && 1 <= s.remaining[s.queue[0]]
  {
    var t := s.queue[0];
    var left := s.remaining[t] - 1;
    if left == 0 then State(Rotate(s.queue), s.remaining[t := s.slice[t]], s.slice)
    else s.(remaining := s.remaining[t := left])
  }

  lemma TickValid(s: State)
    requires Valid(s)
    ensures Valid(Tick(s)) && Tick(s).slice == s.slice && |Tick(s).queue| == |s.queue|
  {
  }

  function Ticks(s: State, k: nat): (r: State)
    requires Valid(s)
    ensures Valid(r) && r.slice == s.slice && |r.queue| == |s.queue|
    decreases k
  {
    if k == 0 then s
    else
      TickValid(s);
      Ticks(Tick(s), k - 1)
  }

  lemma {:induction false} TicksAdd(s: State, j: nat, k: nat)
    requires Valid(s)
    ensures Ticks(s, j + k) == Ticks(Ticks(s, j), k)
    decreases j
  {
    if j > 0 {
      TickValid(s);
      TicksAdd(Tick(s), j - 1, k);
    }
  }

  /** Remaining ticks of the first `i` threads in line. */
  function Wait(s: State, i: nat): nat
    requires Valid(s) && i <= |s.queue|
  {
    if i == 0 then 0 else Wait(s, i - 1) + s.remaining[s.queue[i - 1]]
  }

  /** The state when the first `i` threads have used up their slices. */
  function Turned(s: State, i: nat): State
    requires Valid(s) && i <= |s.queue|
  {
    State(s.queue[i..] + s.queue[..i],
          seq(|s.remaining|, t requires 0 <= t < |s.remaining| => if t in s.queue[..i] then s.slice[t] else s.remaining[t]),
          s.slice)
  }

  lemma TurnedValid(s: State, i: nat)
    requires Valid(s) && i <= |s.queue|
    ensures Valid(Turned(s, i))
  {
    var r := Turned(s, i);
    forall k | 0 <= k < |r.queue|
      ensures r.queue[k] == s.queue[if k < |s.queue| - i then k + i else k - (|s.queue| - i)]
    {
    }
  }

  /** The head runs until its remaining ticks are used up. */
  lemma {:induction false} HeadRuns(s: State, k: nat)
    requires Valid(s) && k < s.remaining[s.queue[0]]
    ensures Ticks(s, k) == s.(remaining := s.remaining[s.queue[0] := s.remaining[s.queue[0]] - k])
    decreases k
  {
    var t := s.queue[0];
    if k == 0 {
      assert s.remaining[t := s.remaining[t]] == s.remaining;
    } else {
      TickValid(s);
      HeadRuns(Tick(s), k - 1);
    }
  }

  lemma HeadDone(s: State)
    requires Valid(s)
    ensures var t := s.queue[0];
            Ticks(s, s.remaining[t]) == State(Rotate(s.queue), s.remaining[t := s.slice[t]], s.slice)
  {
    var k := s.remaining[s.queue[0]] - 1;
    HeadRuns(s, k);
    var m := Ticks(s, k);
    LastTick(s, m);
    OneTickMore(s, k, m, Tick(m));
  }

  lemma OneTickMore(s: State, k: nat, m: State, r: State)
    requires Valid(s) && Valid(m) && m == Ticks(s, k) && r == Tick(m)
    ensures Ticks(s, k + 1) == r
  {
    TicksAdd(s, k, 1);
    TicksOne(m);
  }

  lemma LastTick(s: State, m: State)
    requires Valid(s) && Valid(m) && m == s.(remaining := s.remaining[s.queue[0] := 1])
    ensures Tick(m) == State(Rotate(s.queue), s.remaining[s.queue[0] := s.slice[s.queue[0]]], s.slice)
  {
    SetTwice(s.remaining, s.queue[0], 1, s.slice[s.queue[0]]);
  }

  lemma TicksOne(s: State)
    requires Valid(s)
    ensures Ticks(s, 1) == Tick(s)
  {
    TickValid(s);
    assert Ticks(Tick(s), 0) == Tick(s);
  }

  lemma SetTwice(r: seq<nat>, t: nat, x: nat, y: nat)
    requires t < |r|
    ensures r[t := x][t := y] == r[t := y]
  {
  }

  /** When the first `i` threads have had their remaining ticks, exactly that time has passed, they stand at
      the end of the line with full slices, and nobody else has run. */
  lemma {:induction false} AfterTurns(s: State, i: nat)
    requires Valid(s) && i <= |s.queue|
    ensures Ticks(s, Wait(s, i)) == Turned(s, i)
    decreases i
  {
    if i == 0 {
      NoneTurned(s);
    } else {
      AfterTurns(s, i - 1);
      TurnedHead(s, i);
      OneTurnMore(s, i, Turned(s, i - 1), s.remaining[s.queue[i - 1]], Wait(s, i - 1));
    }
  }

  lemma OneTurnMore(s: State, i: nat, m: State, k: nat, w: nat)
    requires Valid(s) && Valid(m) && 0 < i <= |s.queue| && m == Turned(s, i - 1) && m.queue[0] == s.queue[i - 1]
    requires m == Ticks(s, w) && k == m.remaining[m.queue[0]]
    ensures Ticks(s, w + k) == Turned(s, i)
  {
    HeadDone(m);
    TicksAdd(s, w, k);
    TurnOne(s, i, m);
  }

  lemma NoneTurned(s: State)
    requires Valid(s)
    ensures Turned(s, 0) == s
  {
    assert s.queue[0..] + s.queue[..0] == s.queue;
    assert Turned(s, 0).remaining == s.remaining;
  }

  lemma TurnedHead(s: State, i: nat)
    requires Valid(s) && 0 < i <= |s.queue|
    ensures var m, t := Turned(s, i - 1), s.queue[i - 1];
            Valid(m) && m.queue[0] == t && m.remaining[t] == s.remaining[t] && m.slice == s.slice
  {
    TurnedValid(s, i - 1);
    assert s.queue[i - 1] !in s.queue[..i - 1];
  }

  lemma RotateFront(t: nat, b: seq<nat>, a: seq<nat>)
    ensures Rotate(([t] + b) + a) == b + (a + [t])
  {
    var q := ([t] + b) + a;
    assert q[1..] == b + a;
    assert (b + a) + [t] == b + (a + [t]);
    if |q| == 1 {
      assert q == [t] && b + (a + [t]) == [t];
    }
  }

  lemma CutAround(q: seq<nat>, i: nat)
    requires 0 < i <= |q|
    ensures q[i - 1..] == [q[i - 1]] + q[i..] && q[..i] == q[..i - 1] + [q[i - 1]]
  {
  }

  lemma TurnOne(s: State, i: nat, m: State)
    requires Valid(s) && 0 < i <= |s.queue| && m == Turned(s, i - 1) && m.queue != []
    ensures var t := s.queue[i - 1];
            Rotate(m.queue) == Turned(s, i).queue && m.remaining[t := s.slice[t]] == Turned(s, i).remaining
  {
    CutAround(s.queue, i);
    RotateFront(s.queue[i - 1], s.queue[i..], s.queue[..i - 1]);
    TurnedRemaining(s, i);
  }

  lemma TurnedRemaining(s: State, i: nat)
    requires Valid(s) && 0 < i <= |s.queue|
    ensures var t := s.queue[i - 1];
            Turned(s, i - 1).remaining[t := s.slice[t]] == Turned(s, i).remaining
  {
    var t, a, b := s.queue[i - 1], Turned(s, i - 1).remaining, Turned(s, i).remaining;
    CutAround(s.queue, i);
    forall x | 0 <= x < |a|
      ensures a[t := s.slice[t]][x] == b[x]
    {
    }
  }

  /** The thread at place `i` first runs after exactly the remaining ticks of those before it: at every earlier
      tick one of them is running. */
  lemma FirstRunsAfter(s: State, i: nat, k: nat)
    requires Valid(s) && i < |s.queue|
    ensures Ticks(s, Wait(s, i)).queue[0] == s.queue[i]
    ensures k < Wait(s, i) ==> Ticks(s, k).queue[0] in s.queue[..i]
  {
    AfterTurns(s, i);
    if k < Wait(s, i) {
      EarlierRuns(s, i, k);
    }
  }

  lemma {:induction false} EarlierRuns(s: State, i: nat, k: nat)
    requires Valid(s) && i <= |s.queue| && k < Wait(s, i)
    ensures Ticks(s, k).queue[0] in s.queue[..i]
    decreases i
  {
    if k < Wait(s, i - 1) {
      EarlierRuns(s, i - 1, k);
      assert s.queue[..i - 1] <= s.queue[..i];
    } else {
      AfterTurns(s, i - 1);
      TurnedValid(s, i - 1);
      var m, t := Turned(s, i - 1), s.queue[i - 1];
      assert m.queue[0] == t && t !in s.queue[..i - 1];
      TicksAdd(s, Wait(s, i - 1), k - Wait(s, i - 1));
      HeadRuns(m, k - Wait(s, i - 1));
      assert s.queue[..i][i - 1] == t;
    }
  }

  /** After everybody's remaining ticks the line stands as before and all slices are full; from then on every
      rotation gives each thread exactly its slice before anybody has a second turn. */
  lemma FullRotation(s: State)
    requires Valid(s)
    ensures var r := Ticks(s, Wait(s, |s.queue|));
            && r.queue == s.queue
            && forall i :: 0 <= i < |s.queue| ==> r.remaining[r.queue[i]] == s.slice[s.queue[i]]
  {
    AfterTurns(s, |s.queue|);
    assert s.queue[|s.queue|..] + s.queue[..|s.queue|] == s.queue;
  }

  class Clock {
    var queue: seq<nat>
    var remaining: seq<nat>
    const slice: seq<nat>
    var tick: nat

    ghost function Snapshot(): State
      reads this
    {
      State(queue, remaining, slice)
    }

    constructor (queue: seq<nat>, slice: seq<nat>)
      requires Valid(State(queue, slice, slice))
      ensures Snapshot() == State(queue, slice, slice) && tick == 0
    {
      this.queue, remaining, this.slice, tick := queue, slice, slice, 0;
    }

    /** The clock interrupt: the running thread's slice shrinks, and when it is used up it is refilled and the
        thread goes to the end of its list. */
    method TickIncrease()
      requires Valid(Snapshot())
      modifies this
      ensures Valid(Snapshot()) && Snapshot() == Tick(old(Snapshot()))
      ensures tick == if old(tick) < 0xFFFF_FFFF then old(tick) + 1 else 0
    {
      TickValid(Snapshot());
      tick := if tick < 0xFFFF_FFFF then tick + 1 else 0;
      var t := queue[0];
      remaining := remaining[t := remaining[t] - 1];
      if remaining[t] == 0 {
        remaining := remaining[t := slice[t]];
        if |queue| > 1 {
          queue := queue[1..] + [t];
        }
      }
    }
  }
}
