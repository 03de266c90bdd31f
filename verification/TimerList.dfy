/** The timer skip list (os/timer.c): rows of timers ordered by a wrapping 32-bit deadline, the last row with
    all of them, each row above with some of those below. `due` holds the deadlines on an unbounded clock. */
module TimerList {
  import opened WaitList

  const WORD := 0x1_0000_0000
  const TICK_MAX := 0xFFFF_FFFF
  const HALF := 0x7FFF_FFFF
  const LEVEL_MASK := 3

  /** Unsigned 32-bit subtraction. */
  function Minus(a: nat, b: nat): (r: nat)
    requires a < WORD && b < WORD
    ensures r < WORD
  {
    if a >= b then a - b else a + WORD - b
  }

  /** Inside half the range the wrapped difference tells which of two times is later. */
  lemma WrappedOrder(a: nat, b: nat, base: nat)
    requires base <= a < base + HALF && base <= b < base + HALF
    ensures Minus(a % WORD, b % WORD) == 0 <==> a == b
    ensures 0 < Minus(a % WORD, b % WORD) < HALF <==> b < a
  {
    var x, y := a % WORD, b % WORD;
    WrappedMinus(a, b);
    if b <= a {
      assert (a - b) % WORD == a - b;
    } else {
      assert (a + WORD - b) % WORD == a + WORD - b;
    }
  }

  lemma WrappedMinus(a: nat, b: nat)
    ensures b <= a ==> Minus(a % WORD, b % WORD) == (a - b) % WORD
    ensures a < b <= a + WORD ==> Minus(a % WORD, b % WORD) == (a + WORD - b) % WORD
  {
    var x, y := a / WORD, b / WORD;
    assert a == WORD * x + a % WORD && b == WORD * y + b % WORD;
    assert a - b == WORD * (x - y) + (a % WORD - b % WORD);
  }

  // ---- rows ----

  /** The timers of `queue` at least `m` rows tall. */
  function Tall(queue: seq<nat>, height: seq<nat>, m: nat): (r: seq<nat>)
    requires Known(queue, height)
    ensures Known(r, height)
  {
    if queue == [] then []
    else if height[queue[0]] >= m then [queue[0]] + Tall(queue[1..], height, m)
    else Tall(queue[1..], height, m)
  }

  lemma {:induction false} TallHas(queue: seq<nat>, height: seq<nat>, m: nat)
    requires Known(queue, height)
    ensures forall t :: t in Tall(queue, height, m) <==> t in queue && t < |height| && height[t] >= m
  {
    if queue != [] {
      TallHas(queue[1..], height, m);
      assert queue == [queue[0]] + queue[1..];
    }
  }

  lemma {:induction false} TallConcat(a: seq<nat>, b: seq<nat>, height: seq<nat>, m: nat)
    requires Known(a, height) && Known(b, height)
    ensures Known(a + b, height) && Tall(a + b, height, m) == Tall(a, height, m) + Tall(b, height, m)
  {
    if a == [] {
      assert a + b == b;
    } else {
      var rest := a[1..];
      TallConcat(rest, b, height, m);
      assert (a + b)[1..] == rest + b && (a + b)[0] == a[0];
    }
  }

  lemma {:induction false} TallAll(queue: seq<nat>, height: seq<nat>, m: nat)
    requires Known(queue, height) && forall i :: 0 <= i < |queue| ==> height[queue[i]] >= m
    ensures Tall(queue, height, m) == queue
  {
    if queue != [] {
      TallAll(queue[1..], height, m);
    }
  }

  /** A taller row is a subsequence of a lower one. */
  lemma {:induction false} TallOfTall(queue: seq<nat>, height: seq<nat>, m: nat, k: nat)
    requires Known(queue, height) && m <= k
    ensures Tall(Tall(queue, height, m), height, k) == Tall(queue, height, k)
  {
    if queue != [] {
      var rest := Tall(queue[1..], height, m);
      TallOfTall(queue[1..], height, m, k);
      if height[queue[0]] >= m {
        assert ([queue[0]] + rest)[1..] == rest;
      }
    }
  }

  lemma {:induction false} TallWithout(queue: seq<nat>, height: seq<nat>, m: nat, t: nat)
    requires Known(queue, height)
    ensures Known(Without(queue, t), height)
    ensures Tall(Without(queue, t), height, m) == Without(Tall(queue, height, m), t)
  {
    if queue != [] {
      var x, rest := queue[0], queue[1..];
      TallWithout(rest, height, m, t);
      var w, r := Without(rest, t), Tall(rest, height, m);
      WithoutFirst(queue, t);
      if height[x] >= m {
        WithoutFirst([x] + r, t);
        assert ([x] + r)[1..] == r;
      }
      if x != t {
        assert ([x] + w)[1..] == w;
      }
    }
  }

  /** A timer that is not in the queue may change its height. */
  lemma {:induction false} TallElsewhere(queue: seq<nat>, height: seq<nat>, m: nat, t: nat, h: nat)
    requires Known(queue, height) && t < |height| && t !in queue
    ensures Known(queue, height[t := h]) && Tall(queue, height[t := h], m) == Tall(queue, height, m)
  {
    if queue != [] {
      assert queue[0] in queue;
      TallElsewhere(queue[1..], height, m, t, h);
    }
  }

  /** The place before which everything is early enough, and at which something is later, is the slot. */
  lemma {:induction false} SlotIs(list: seq<nat>, due: seq<nat>, d: nat, i: nat, k: nat)
    requires Known(list, due) && i <= k <= |list|
    requires forall j :: i <= j < k ==> due[list[j]] <= d
    requires k < |list| ==> d < due[list[k]]
    ensures Slot(list, due, d, i) == k
    decreases k - i
  {
    if i < k {
      SlotIs(list, due, d, i + 1, k);
    }
  }

  lemma {:induction false} TallSorted(queue: seq<nat>, height: seq<nat>, due: seq<nat>, m: nat)
    requires Sorted(queue, due) && |height| == |due|
    ensures Sorted(Tall(queue, height, m), due)
  {
    if queue != [] {
      var rest := queue[1..];
      TallSorted(rest, height, due, m);
      var r := Tall(rest, height, m);
      TallHas(rest, height, m);
      forall i | 0 <= i < |r|
        ensures due[queue[0]] <= due[r[i]]
      {
        assert r[i] in rest;
      }
    }
  }

  lemma SlotParts(queue: seq<nat>, due: seq<nat>, d: nat, k: nat)
    requires Sorted(queue, due) && k == Slot(queue, due, d, 0)
    ensures forall x :: x in queue[..k] ==> x < |due| && due[x] <= d
    ensures forall x :: x in queue[k..] ==> x < |due| && d < due[x]
  {
    forall i | k <= i < |queue|
      ensures d < due[queue[i]]
    {
      assert due[queue[k]] <= due[queue[i]];
    }
  }

  lemma SlotBetween(a: seq<nat>, b: seq<nat>, due: seq<nat>, d: nat)
    requires forall x :: x in a ==> x < |due| && due[x] <= d
    requires forall x :: x in b ==> x < |due| && d < due[x]
    ensures Known(a + b, due) && Slot(a + b, due, d, 0) == |a|
  {
    var s := a + b;
    forall j | 0 <= j < |s|
      ensures s[j] < |due| && if j < |a| then due[s[j]] <= d else d < due[s[j]]
    {
      assert if j < |a| then s[j] == a[j] && a[j] in a else s[j] == b[j - |a|] && b[j - |a|] in b;
    }
    SlotIs(s, due, d, 0, |a|);
  }

  /** The slot in a row is where the slot in the queue cuts it. */
  lemma TallSlot(queue: seq<nat>, height: seq<nat>, due: seq<nat>, d: nat, m: nat, k: nat)
    requires Sorted(queue, due) && |height| == |due| && k == Slot(queue, due, d, 0)
    ensures Known(queue[..k], height) && Known(queue[k..], height)
    ensures queue == queue[..k] + queue[k..]
    ensures Tall(queue, height, m) == Tall(queue[..k], height, m) + Tall(queue[k..], height, m)
    ensures Slot(Tall(queue, height, m), due, d, 0) == |Tall(queue[..k], height, m)|
  {
    var a, b := queue[..k], queue[k..];
    assert queue == a + b;
    TallConcat(a, b, height, m);
    TallHas(a, height, m);
    TallHas(b, height, m);
    SlotParts(queue, due, d, k);
    SlotBetween(Tall(a, height, m), Tall(b, height, m), due, d);
  }

  /** Putting a timer at its slot in the queue puts it at its slot in every row it is tall enough for. */
  lemma TallInsert(queue: seq<nat>, height: seq<nat>, due: seq<nat>, t: nat, m: nat)
    requires Sorted(queue, due) && t < |height| == |due|
    ensures Known(Insert(queue, t, due, Prio), height)
    ensures Tall(Insert(queue, t, due, Prio), height, m) ==
            if height[t] >= m then Insert(Tall(queue, height, m), t, due, Prio) else Tall(queue, height, m)
  {
    var k := Slot(queue, due, due[t], 0);
    var a, b := queue[..k], queue[k..];
    TallSlot(queue, height, due, due[t], m, k);
    TallAround(a, b, height, t, m);
    Cut(a, b);
    InsertIs(queue, t, due, k, a, b);
    if height[t] >= m {
      InsertIs(Tall(queue, height, m), t, due, |Tall(a, height, m)|, Tall(a, height, m), Tall(b, height, m));
    }
  }

  /** A list cut at the slot of `t` gets `t` between its two parts. */
  lemma InsertIs(list: seq<nat>, t: nat, due: seq<nat>, k: nat, a: seq<nat>, b: seq<nat>)
    requires Known(list, due) && t < |due| && k == Slot(list, due, due[t], 0)
    requires |a| == k && list == a + b
    ensures Insert(list, t, due, Prio) == a + [t] + b
  {
    Cut(a, b);
  }

  lemma TallAround(a: seq<nat>, b: seq<nat>, height: seq<nat>, t: nat, m: nat)
    requires Known(a, height) && Known(b, height) && t < |height|
    ensures Known(a + [t] + b, height)
    ensures Tall(a + [t] + b, height, m) ==
            if height[t] >= m then Tall(a, height, m) + [t] + Tall(b, height, m) else Tall(a, height, m) + Tall(b, height, m)
  {
    TallConcat(a, [t], height, m);
    TallConcat(a + [t], b, height, m);
    TallOne(t, height, m);
    AppendNothing(Tall(a, height, m));
  }

  lemma TallOne(t: nat, height: seq<nat>, m: nat)
    requires t < |height|
    ensures Tall([t], height, m) == if height[t] >= m then [t] else []
  {
    assert [t][1..] == [];
    assert Tall([], height, m) == [];
  }

  lemma Cut(a: seq<nat>, b: seq<nat>)
    ensures (a + b)[..|a|] == a && (a + b)[|a|..] == b
  {
  }

  lemma AlsoBelow(queue: seq<nat>, height: seq<nat>, due: seq<nat>, m: nat, x: nat)
    requires Sorted(queue, due) && |height| == |due| && 0 < m && x in Tall(queue, height, m)
    ensures x in Tall(queue, height, m - 1) && Sorted(Tall(queue, height, m - 1), due)
  {
    TallHas(queue, height, m);
    TallHas(queue, height, m - 1);
    TallSorted(queue, height, due, m - 1);
  }

  lemma EarlierToo(row: seq<nat>, due: seq<nat>, t: nat, i: nat)
    requires Sorted(row, due) && i < |row| && t < |due| && due[row[i]] <= due[t]
    ensures NoneLater(row, due, t, i + 1)
  {
  }

  // ---- the list in place ----

  /** The unsigned 32-bit successor. */
  function Bumped(nr: nat): nat { if nr < TICK_MAX then nr + 1 else 0 }

  /** How many rows above the last a timer gets: one for each pair of low bits that is zero. */
  function Grow(nr: nat, room: nat): (h: nat)
    ensures h <= room
    decreases room
  {
    if room == 0 || nr % (LEVEL_MASK + 1) != 0 then 0 else 1 + Grow(nr / (LEVEL_MASK + 1), room - 1)
  }

  function Pow4(n: nat): (p: nat)
    ensures p > 0
  {
    if n == 0 then 1 else 4 * Pow4(n - 1)
  }

  /** The counter steps by one, modulo 2^32; a timer goes up one row for every two low bits of it that are all
      zero, until bits are set or the rows run out. */
  lemma {:induction false} HeightFollowsBits(nr: nat, room: nat)
    requires nr < WORD
    ensures Bumped(nr) == (nr + 1) % WORD
    ensures var h := Grow(nr, room); h <= room && nr % Pow4(h) == 0 && (h < room ==> nr % Pow4(h + 1) != 0)
    decreases room
  {
    if room > 0 && nr % 4 == 0 {
      HeightFollowsBits(nr / 4, room - 1);
      var h := Grow(nr / 4, room - 1);
      QuarterOf(nr, Pow4(h));
      QuarterOf(nr, Pow4(h + 1));
    } else {
      assert Pow4(1) == 4 * Pow4(0);
    }
  }

  lemma QuarterOf(nr: nat, p: nat)
    requires nr % 4 == 0 && p > 0
    ensures nr % (4 * p) == 0 <==> nr / 4 % p == 0
  {
    var q := nr / 4;
    if q % p == 0 {
      assert nr == q / p * (4 * p);
      MultipleLeavesNone(q / p, 4 * p);
    }
    if nr % (4 * p) == 0 {
      assert q == nr / (4 * p) * p;
      MultipleLeavesNone(nr / (4 * p), p);
    }
  }

  lemma MultipleLeavesNone(k: nat, d: nat)
    requires d > 0
    ensures k * d % d == 0
  {
    var q, r := k * d / d, k * d % d;
    assert k * d == q * d + r;
    if q < k {
      TimesGrows(q + 1, k, d);
    } else {
      TimesGrows(k, q, d);
    }
  }

  lemma TimesGrows(x: nat, y: nat, d: nat)
    requires x <= y
    ensures x * d <= y * d
  {
  }

  ghost predicate RowIs(row: seq<nat>, queue: seq<nat>, height: seq<nat>, m: nat)
  {
    Known(queue, height) && row == Tall(queue, height, m)
  }

  /** Each row holds the queued timers tall enough for it, in the order of the queue. */
  ghost predicate RowsAre(rows: seq<seq<nat>>, queue: seq<nat>, height: seq<nat>)
  {
    forall l :: 0 <= l < |rows| ==> RowIs(rows[l], queue, height, |rows| - l)
  }

  /** The timer has been linked at its slot into the `h` lowest rows. */
  ghost predicate LinkedIn(was: seq<seq<nat>>, heads: seq<nat>, now: seq<seq<nat>>, t: nat, h: nat)
  {
    && |was| == |heads| == |now|
    && forall l :: 0 <= l < |now| ==>
         heads[l] <= |was[l]| && now[l] == if |now| - l <= h then Spliced(was[l], heads[l], t) else was[l]
  }

  ghost predicate HeadsIn(rows: seq<seq<nat>>, heads: seq<nat>)
  {
    |rows| == |heads| && forall l :: 0 <= l < |rows| ==> heads[l] <= |rows[l]|
  }

  ghost predicate AllAtSlot(rows: seq<seq<nat>>, due: seq<nat>, t: nat, heads: seq<nat>)
  {
    |rows| == |heads| && forall l :: 0 <= l < |rows| ==> AtSlot(rows[l], due, t, heads[l])
  }

  /** A timer's deadline lies within half the range from `base`, and its tick is the deadline's low word. */
  ghost predicate Queued(t: nat, due: seq<nat>, tick: seq<nat>, height: seq<nat>, base: nat)
  {
    && t < |due| == |tick| == |height|
    && base <= due[t] < base + HALF && tick[t] == due[t] % WORD && 0 < height[t]
  }

  ghost predicate InWindow(list: seq<nat>, due: seq<nat>, tick: seq<nat>, height: seq<nat>, base: nat)
  {
    forall i :: 0 <= i < |list| ==> Queued(list[i], due, tick, height, base)
  }

  lemma WindowPart(list: seq<nat>, part: seq<nat>, due: seq<nat>, tick: seq<nat>, height: seq<nat>, base: nat)
    requires InWindow(list, due, tick, height, base) && forall t :: t in part ==> t in list
    ensures InWindow(part, due, tick, height, base)
  {
    forall i | 0 <= i < |part|
      ensures Queued(part[i], due, tick, height, base)
    {
      assert part[i] in list;
    }
  }

  lemma WindowPut(list: seq<nat>, t: nat, k: nat, r: seq<nat>, due: seq<nat>, tick: seq<nat>, height: seq<nat>, base: nat, h: nat)
    requires InWindow(list, due, tick, height, base) && PutIn(list, t, k, r) && t !in list && 0 < h
    requires t < |due| == |tick| == |height| && base <= due[t] < base + HALF && tick[t] == due[t] % WORD
    ensures InWindow(r, due, tick, height[t := h], base)
  {
    forall i | 0 <= i < |r|
      ensures Queued(r[i], due, tick, height[t := h], base)
    {
      if i != k {
        var j := if i < k then i else i - 1;
        assert Queued(list[j], due, tick, height, base) && list[j] in list;
      }
    }
  }

  class Timers {
    const levels: nat
    var rows: seq<seq<nat>>
    var tick: seq<nat>
    var init: seq<nat>
    var periodic: seq<bool>
    var active: seq<bool>
    var randomNr: nat
    ghost var queue: seq<nat>
    ghost var height: seq<nat>
    ghost var due: seq<nat>

    /** Row `l` holds the queued timers of at least `levels - l` rows, in the order of the queue; the queue is
        sorted by deadline; the deadlines lie within half the range from `base` and the ticks are their low
        words. */
    ghost predicate Valid(base: nat)
      reads this
    {
      && 0 < levels == |rows| && Sizes() && Sorted(queue, due) && Distinct(queue) && randomNr < WORD
      && RowsAre(rows, queue, height)
      && InWindow(queue, due, tick, height, base)
    }

    ghost predicate Sizes()
      reads this
    {
      |tick| == |init| == |periodic| == |active| == |height| == |due|
    }

    /** At rest a timer is active exactly when it is queued. */
    ghost predicate Settled()
      reads this
      requires Sizes()
    {
      forall t :: 0 <= t < |active| ==> (active[t] <==> t in queue)
    }

    constructor (levels: nat, init: seq<nat>, periodic: seq<bool>, ghost base: nat)
      requires 0 < levels && |init| == |periodic|
      ensures Valid(base) && Settled() && queue == [] && this.levels == levels
      ensures this.init == init && this.periodic == periodic
    {
      this.levels, this.init, this.periodic, randomNr := levels, init, periodic, 0;
      rows := seq(levels, _ => []);
      tick, active := seq(|init|, _ => 0), seq(|init|, _ => false);
      queue, height, due := [], seq(|init|, _ => 0), seq(|init|, _ => 0);
    }

    /** Unlinks a timer from every row. */
    method Remove(t: nat, ghost base: nat)
      requires Valid(base) && t < |due|
      modifies this`rows, this`queue
      ensures Valid(base) && queue == Without(old(queue), t)
    {
      ghost var was := queue;
      WithoutSorted(queue, due, t);
      var i := 0;
      while i < levels
        invariant i <= levels == |rows| && queue == was
        invariant forall l :: 0 <= l < i ==> rows[l] == Without(Tall(was, height, levels - l), t)
        invariant forall l :: i <= l < levels ==> RowIs(rows[l], was, height, levels - l)
      {
        rows := rows[i := Without(rows[i], t)];
        i := i + 1;
      }
      queue := Without(was, t);
      forall l | 0 <= l < levels
        ensures RowIs(rows[l], queue, height, levels - l)
      {
        TallWithout(was, height, levels - l, t);
      }
      WindowPart(was, queue, due, tick, height, base);
    }

    /** Moves on in a row past every timer not later than `t`. */
    method Seek(row: seq<nat>, from: nat, t: nat, ghost base: nat) returns (pos: nat)
      requires Sizes() && t < |due| && Sorted(row, due) && from <= |row|
      requires base <= due[t] < base + HALF && tick[t] == due[t] % WORD
      requires InWindow(row, due, tick, height, base)
      requires forall j :: 0 <= j < from ==> due[row[j]] <= due[t]
      ensures pos <= |row| && pos == Slot(row, due, due[t], 0)
    {
      pos := from;
      while pos < |row|
        invariant pos <= |row| && forall j :: 0 <= j < pos ==> due[row[j]] <= due[t]
      {
        assert Queued(row[pos], due, tick, height, base);
        WrappedOrder(due[row[pos]], due[t], base);
        var diff := Minus(tick[row[pos]], tick[t]);
        if diff != 0 && diff < HALF {
          break;
        }
        pos := pos + 1;
      }
      SlotIs(row, due, due[t], 0, pos);
    }

    /** Finds the timer's slot in every row, going down a row at the timer where it left the one above. */
    method Heads(t: nat, ghost base: nat) returns (heads: seq<nat>)
      requires Valid(base) && t < |due| && t !in queue
      requires base <= due[t] < base + HALF && tick[t] == due[t] % WORD
      ensures AllAtSlot(rows, due, t, heads)
    {
      heads := [];
      var pos: nat := 0;
      while |heads| < levels
        invariant |heads| <= levels
        invariant forall l :: 0 <= l < |heads| ==> AtSlot(rows[l], due, t, heads[l])
        invariant |heads| < levels ==> NoneLater(rows[|heads|], due, t, pos)
      {
        var row := |heads|;
        RowQueued(row, base);
        pos := Seek(rows[row], pos, t, base);
        heads := heads + [pos];
        if row + 1 < levels {
          pos := Below(row, pos, t, base);
        }
      }
    }

    /** The position in the next row that corresponds to one in this row. */
    method Below(row: nat, pos: nat, t: nat, ghost base: nat) returns (next: nat)
      requires Valid(base) && row + 1 < levels && t < |due| && NoneLater(rows[row], due, t, pos)
      ensures NoneLater(rows[row + 1], due, t, next)
    {
      if pos == 0 {
        return 0;
      }
      var x := rows[row][pos - 1];
      assert RowIs(rows[row], queue, height, levels - row) && RowIs(rows[row + 1], queue, height, levels - (row + 1));
      AlsoBelow(queue, height, due, levels - row, x);
      var i := IndexOf(rows[row + 1], x);
      EarlierToo(rows[row + 1], due, t, i);
      next := i + 1;
    }

    lemma RowQueued(l: nat, base: nat)
      requires Valid(base) && l < levels
      ensures Sorted(rows[l], due) && InWindow(rows[l], due, tick, height, base)
    {
      assert RowIs(rows[l], queue, height, levels - l);
      TallSorted(queue, height, due, levels - l);
      TallHas(queue, height, levels - l);
      WindowPart(queue, rows[l], due, tick, height, base);
    }

    /** Links the timer into the last row and, while pairs of low bits are zero, into the rows above. */
    method Link(t: nat, heads: seq<nat>) returns (ghost h: nat)
      requires |heads| == levels == |rows| && 0 < levels && randomNr < WORD && HeadsIn(rows, heads)
      modifies this`rows, this`randomNr
      ensures |rows| == levels && randomNr == Bumped(old(randomNr)) && 0 < h == 1 + Grow(randomNr, levels - 1)
      ensures LinkedIn(old(rows), heads, rows, t, h)
    {
      randomNr := Bumped(randomNr);
      var nr: nat := randomNr;
      var last := levels - 1;
      rows := rows[last := Spliced(rows[last], heads[last], t)];
      var up: nat := 1;
      while up < levels && nr % (LEVEL_MASK + 1) == 0
        invariant 1 <= up <= levels == |rows| && randomNr == Bumped(old(randomNr))
        invariant Grow(randomNr, levels - 1) == up - 1 + Grow(nr, levels - up)
        invariant forall l :: 0 <= l < levels - up ==> rows[l] == old(rows)[l]
        invariant forall l :: levels - up <= l < levels ==> rows[l] == Spliced(old(rows)[l], heads[l], t)
      {
        var l := last - up;
        rows := rows[l := Spliced(rows[l], heads[l], t)];
        nr := nr / (LEVEL_MASK + 1);
        up := up + 1;
      }
      h := up;
    }

    /** Queues a timer behind every timer not later than its deadline and before every later one. */
    method Enqueue(t: nat, ghost base: nat)
      requires Valid(base) && t < |due| && t !in queue
      requires base <= due[t] < base + HALF && tick[t] == due[t] % WORD
      modifies this`rows, this`queue, this`height, this`randomNr
      ensures Valid(base) && Known(old(queue), due) && queue == Insert(old(queue), t, due, Prio)
      ensures randomNr == Bumped(old(randomNr))
      ensures height == old(height)[t := height[t]]
    {
      ghost var rest, was := queue, rows;
      var heads := Heads(t, base);
      ghost var k, r := Enlisted(rest, t, due);
      HeadsFit(rows, due, t, heads);
      ghost var h;
      h := Link(t, heads);
      RowsFollow(rest, height, height[t := h], due, t, h, was, heads, rows, r);
      WindowPut(rest, t, k, r, due, tick, height, base, h);
      height := height[t := h];
      queue := r;
    }

    static lemma Enlisted(rest: seq<nat>, t: nat, due: seq<nat>) returns (k: nat, r: seq<nat>)
      requires Sorted(rest, due) && Distinct(rest) && t < |due| && t !in rest
      ensures r == Insert(rest, t, due, Prio) && PutIn(rest, t, k, r) && Sorted(r, due) && Distinct(r)
    {
      PrioInsert(rest, t, due);
      InsertMembers(rest, t, due, Prio);
      k, r := Place(rest, t, due, Prio), Insert(rest, t, due, Prio);
    }

    /** Splicing each row that the timer is tall enough for gives the rows of the new queue. */
    static lemma RowsFollow(rest: seq<nat>, height: seq<nat>, height': seq<nat>, due: seq<nat>, t: nat, h: nat,
                            was: seq<seq<nat>>, heads: seq<nat>, now: seq<seq<nat>>, r: seq<nat>)
      requires Sorted(rest, due) && t < |height| == |due| && t !in rest && height' == height[t := h]
      requires RowsAre(was, rest, height) && AllAtSlot(was, due, t, heads) && LinkedIn(was, heads, now, t, h)
      requires r == Insert(rest, t, due, Prio) && Known(r, height')
      ensures RowsAre(now, r, height')
    {
      forall l | 0 <= l < |now|
        ensures RowIs(now[l], r, height', |now| - l)
      {
        assert RowIs(was[l], rest, height, |was| - l) && AtSlot(was[l], due, t, heads[l]);
        RowFollows(rest, height, height', due, t, h, was[l], heads[l], r, |was| - l);
      }
    }

    static lemma RowFollows(rest: seq<nat>, height: seq<nat>, height': seq<nat>, due: seq<nat>, t: nat, h: nat,
                            row: seq<nat>, head: nat, r: seq<nat>, m: nat)
      requires Sorted(rest, due) && t < |height| == |due| && t !in rest && height' == height[t := h]
      requires RowIs(row, rest, height, m) && AtSlot(row, due, t, head)
      requires r == Insert(rest, t, due, Prio) && Known(r, height')
      ensures head <= |row| && RowIs(if m <= h then Spliced(row, head, t) else row, r, height', m)
    {
      TallElsewhere(rest, height, m, t, h);
      TallInsert(rest, height', due, t, m);
    }

    static lemma HeadsFit(rows: seq<seq<nat>>, due: seq<nat>, t: nat, heads: seq<nat>)
      requires AllAtSlot(rows, due, t, heads)
      ensures HeadsIn(rows, heads)
    {
      forall l | 0 <= l < |rows|
        ensures heads[l] <= |rows[l]|
      {
        assert AtSlot(rows[l], due, t, heads[l]);
      }
    }

    /** (Re)starts a timer: wherever it was, it is now queued by its new deadline, and active. */
    method Start(t: nat, now: nat, ghost base: nat)
      requires Valid(base) && t < |due| && init[t] < HALF && base <= now + init[t] < base + HALF
      modifies this`rows, this`queue, this`active, this`tick, this`due, this`height, this`randomNr
      ensures Valid(base) && due == old(due)[t := now + init[t]] && active == old(active)[t := true]
      ensures Known(Without(old(queue), t), due) && queue == Insert(Without(old(queue), t), t, due, Prio)
    {
      Remove(t, base);
      active := active[t := false];
      SetDeadline(t, now, base);
      Enqueue(t, base);
      active := active[t := true];
    }

    method SetDeadline(t: nat, now: nat, ghost base: nat)
      requires Valid(base) && t < |due| && t !in queue
      modifies this`tick, this`due
      ensures Valid(base) && due == old(due)[t := now + init[t]] && tick[t] == due[t] % WORD
    {
      ghost var wasDue, wasTick := due, tick;
      tick := tick[t := (now % WORD + init[t]) % WORD];
      due := due[t := now + init[t]];
      forall i | 0 <= i < |queue|
        ensures Queued(queue[i], due, tick, height, base) && queue[i] != t
      {
        assert queue[i] in queue;
        assert Queued(queue[i], wasDue, wasTick, height, base);
      }
    }

    /** Stops an active timer. */
    method Stop(t: nat, ghost base: nat) returns (ok: bool)
      requires Valid(base) && t < |due|
      modifies this`rows, this`queue, this`active
      ensures Valid(base) && ok == old(active)[t] && active == old(active)[t := false]
      ensures queue == if ok then Without(old(queue), t) else old(queue)
    {
      if !active[t] {
        return false;
      }
      Remove(t, base);
      active := active[t := false];
      return true;
    }

    lemma LastRow(base: nat)
      requires Valid(base)
      ensures rows[levels - 1] == queue
    {
      assert RowIs(rows[levels - 1], queue, height, 1);
      forall i | 0 <= i < |queue|
        ensures height[queue[i]] >= 1
      {
        assert Queued(queue[i], due, tick, height, base);
      }
      TallAll(queue, height, 1);
    }

    /** The tick of the earliest deadline, or the largest tick when nothing is queued. */
    method NextTimeout(ghost base: nat) returns (timeout: nat)
      requires Valid(base)
      ensures queue == [] ==> timeout == TICK_MAX
      ensures queue != [] ==> timeout == due[queue[0]] % WORD && forall i :: 0 <= i < |queue| ==> due[queue[0]] <= due[queue[i]]
    {
      LastRow(base);
      if rows[levels - 1] != [] {
        assert Queued(queue[0], due, tick, height, base);
        return tick[rows[levels - 1][0]];
      }
      return TICK_MAX;
    }

    /** The tick interrupt: all timers due at `now` fire, earliest deadline first and first started first among
        equals, and nothing else fires; periodic ones are queued again a period from now. The callbacks leave
        the timers alone and time stands still, as interrupts are off. */
    method Check(now: nat, ghost base: nat) returns (fired: seq<nat>)
      requires Valid(base) && Settled() && base <= now < base + HALF
      requires forall i :: 0 <= i < |queue| ==>
                 queue[i] < |init| && (periodic[queue[i]] ==> 1 <= init[queue[i]] < HALF && now + init[queue[i]] < base + HALF)
      modifies this`rows, this`queue, this`active, this`tick, this`due, this`height, this`randomNr
      ensures Valid(base) && Settled()
      ensures var k := Slot(old(queue), old(due), now, 0);
              && fired == old(queue)[..k]
              && due == Restarted(old(due), init, periodic, fired, now)
              && Known(old(queue)[k..], due) && Known(fired, due)
              && queue == Requeued(old(queue)[k..], fired, periodic, due)
      ensures AllLater(queue, due, now)
    {
      ghost var q, d := queue, due;
      ghost var k := Slot(q, d, now, 0);
      fired := [];
      LastRow(base);
      FiringStarts(q, d, init, periodic, now, k);
      while rows[levels - 1] != []
        invariant Valid(base) && rows[levels - 1] == queue && Settled()
        invariant Firing(q, d, init, periodic, now, k, fired, queue, due)
        decreases k - |fired|
      {
        var t := rows[levels - 1][0];
        assert Queued(t, due, tick, height, base);
        WrappedOrder(now, due[t], base);
        FiringHead(q, d, init, periodic, now, k, fired, queue, due);
        if Minus(now % WORD, tick[t]) >= HALF {
          break;
        }
        ghost var queue0, due0 := queue, due;
        Fire(t, now, base);
        FiringStep(q, d, init, periodic, now, k, fired, queue0, due0, queue, due);
        fired := fired + [t];
        LastRow(base);
      }
      FiringDone(q, d, init, periodic, now, k, fired, queue, due);
    }

    /** The earliest timer is taken off; a periodic one is started again, a one-shot one is done. */
    method Fire(t: nat, now: nat, ghost base: nat)
      requires Valid(base) && Settled() && queue != [] && t == queue[0]
      requires periodic[t] ==> init[t] < HALF && base <= now + init[t] < base + HALF
      modifies this`rows, this`queue, this`active, this`tick, this`due, this`height, this`randomNr
      ensures Valid(base) && Settled()
      ensures FiredHead(old(queue), old(due), init, periodic, now, queue, due)
    {
      ghost var q, d := queue, due;
      TakeHead(t, base);
      if !periodic[t] {
        active := active[t := false];
      }
      if periodic[t] && active[t] {
        active := active[t := false];
        StartAgain(t, now, base);
      }
      FiredIs(q, d, init, periodic, now, queue, due);
    }

    method TakeHead(t: nat, ghost base: nat)
      requires Valid(base) && queue != [] && t == queue[0]
      modifies this`rows, this`queue
      ensures Valid(base) && queue == old(queue)[1..] && t !in queue
      ensures forall x :: x in old(queue) <==> x in queue || x == t
    {
      WithoutHead(queue);
      Remove(t, base);
    }

    method StartAgain(t: nat, now: nat, ghost base: nat)
      requires Valid(base) && Settled() && t < |due| && t !in queue
      requires init[t] < HALF && base <= now + init[t] < base + HALF
      modifies this`rows, this`queue, this`active, this`tick, this`due, this`height, this`randomNr
      ensures Valid(base) && Settled() && due == old(due)[t := now + init[t]]
      ensures Known(old(queue), due) && queue == Insert(old(queue), t, due, Prio)
    {
      ghost var rest, idle := queue, active;
      WithoutNone(rest, t);
      Start(t, now, base);
      SettledAgain(rest, t, due, idle);
    }

    static lemma SettledAgain(rest: seq<nat>, t: nat, due: seq<nat>, idle: seq<bool>)
      requires Known(rest, due) && t < |idle| == |due|
      requires forall x :: 0 <= x < |idle| ==> (idle[x] <==> x in rest)
      ensures forall x :: 0 <= x < |idle| ==> (idle[t := true][x] <==> x in Insert(rest, t, due, Prio))
    {
      InsertMembers(rest, t, due, Prio);
    }
  }

  // ---- firing ----

  /** The timers before the slot of `now` are exactly the due ones, in order of their deadlines. */
  lemma DueAreFirst(q: seq<nat>, d: seq<nat>, now: nat)
    requires Sorted(q, d)
    ensures var k := Slot(q, d, now, 0);
            && Sorted(q[..k], d)
            && forall x :: x in q[..k] <==> x in q && x < |d| && d[x] <= now
  {
    var k := Slot(q, d, now, 0);
    forall j | k <= j < |q|
      ensures now < d[q[j]]
    {
      assert d[q[k]] <= d[q[j]];
    }
    forall x | x in q && x < |d| && d[x] <= now
      ensures x in q[..k]
    {
      var i :| 0 <= i < |q| && q[i] == x;
      assert q[..k][i] == x;
    }
  }

  /** Each row is a subsequence of the row below, in the same order. */
  lemma RowsNest(rows: seq<seq<nat>>, queue: seq<nat>, height: seq<nat>, due: seq<nat>, l: nat)
    requires RowsAre(rows, queue, height) && Sorted(queue, due) && |height| == |due| && l + 1 < |rows|
    ensures Known(rows[l + 1], height) && rows[l] == Tall(rows[l + 1], height, |rows| - l)
    ensures Sorted(rows[l], due) && Sorted(rows[l + 1], due)
  {
    assert RowIs(rows[l], queue, height, |rows| - l) && RowIs(rows[l + 1], queue, height, |rows| - (l + 1));
    TallOfTall(queue, height, |rows| - (l + 1), |rows| - l);
    TallSorted(queue, height, due, |rows| - l);
    TallSorted(queue, height, due, |rows| - (l + 1));
  }

  /** A check of queue `q` with deadlines `d` at time `now` finds its first `k` timers due. */
  ghost predicate Planned(q: seq<nat>, d: seq<nat>, init: seq<nat>, periodic: seq<bool>, now: nat, k: nat)
  {
    && Sorted(q, d) && Distinct(q) && |d| == |init| == |periodic| && k == Slot(q, d, now, 0)
    && forall i :: 0 <= i < |q| && periodic[q[i]] ==> 1 <= init[q[i]]
  }

  /** How far a check of queue `q` with deadlines `d` has come: `k` timers are due, the first ones have fired,
      the other due ones stand before all that are not due. */
  ghost predicate Firing(q: seq<nat>, d: seq<nat>, init: seq<nat>, periodic: seq<bool>, now: nat, k: nat,
                         fired: seq<nat>, queue: seq<nat>, due: seq<nat>)
  {
    && Planned(q, d, init, periodic, now, k)
    && |fired| <= k && fired == q[..|fired|] && due == Restarted(d, init, periodic, fired, now)
    && Known(q[k..], due) && Known(fired, due)
    && queue == q[|fired|..k] + Requeued(q[k..], fired, periodic, due)
  }

  lemma FiringStarts(q: seq<nat>, d: seq<nat>, init: seq<nat>, periodic: seq<bool>, now: nat, k: nat)
    requires Sorted(q, d) && Distinct(q) && |d| == |init| == |periodic| && k == Slot(q, d, now, 0)
    requires forall i :: 0 <= i < |q| && periodic[q[i]] ==> 1 <= init[q[i]]
    ensures Firing(q, d, init, periodic, now, k, [], q, d)
  {
    NothingRestarted(d, init, periodic, now);
    var rest := q[k..];
    assert Requeued(rest, [], periodic, d) == rest;
    WholeAt(q, k);
  }

  lemma NothingRestarted(d: seq<nat>, init: seq<nat>, periodic: seq<bool>, now: nat)
    requires |d| == |init| == |periodic|
    ensures Restarted(d, init, periodic, [], now) == d
  {
  }

  lemma WholeAt(q: seq<nat>, k: nat)
    requires k <= |q|
    ensures q == q[0..k] + q[k..] && q[..0] == []
  {
  }

  lemma {:induction false} RequeuedHas(rest: seq<nat>, fired: seq<nat>, periodic: seq<bool>, due: seq<nat>)
    requires Known(rest, due) && Known(fired, due) && |periodic| == |due|
    ensures forall x :: x in Requeued(rest, fired, periodic, due) ==>
              x in rest || (x in fired && x < |periodic| && periodic[x])
    decreases |fired|
  {
    if fired != [] {
      var n := |fired| - 1;
      RequeuedHas(rest, fired[..n], periodic, due);
      var before := Requeued(rest, fired[..n], periodic, due);
      InsertMembers(before, fired[n], due, Prio);
    }
  }

  /** What is not yet due stays behind what is: everything put back is later than `now`. */
  lemma BackIsLater(q: seq<nat>, d: seq<nat>, init: seq<nat>, periodic: seq<bool>, now: nat, k: nat,
                    fired: seq<nat>, queue: seq<nat>, due: seq<nat>)
    requires Firing(q, d, init, periodic, now, k, fired, queue, due)
    ensures forall x :: x in Requeued(q[k..], fired, periodic, due) ==> x < |due| && now < due[x]
  {
    RequeuedHas(q[k..], fired, periodic, due);
    forall x | x in Requeued(q[k..], fired, periodic, due)
      ensures x < |due| && now < due[x]
    {
      if x in q[k..] {
        var i :| k <= i < |q| && q[i] == x;
        assert d[q[k]] <= d[q[i]];
        assert x !in fired;
      } else {
        var i :| 0 <= i < |fired| && fired[i] == x;
        assert q[i] == x;
      }
    }
  }

  /** The head of the queue is due exactly when some due timer has not fired. */
  lemma FiringHead(q: seq<nat>, d: seq<nat>, init: seq<nat>, periodic: seq<bool>, now: nat, k: nat,
                   fired: seq<nat>, queue: seq<nat>, due: seq<nat>)
    requires Firing(q, d, init, periodic, now, k, fired, queue, due)
    ensures queue == [] ==> |fired| == k
    ensures queue != [] ==> queue[0] < |due| && (due[queue[0]] <= now <==> |fired| < k)
    ensures |fired| < k ==> queue != [] && queue[0] == q[|fired|]
  {
    BackIsLater(q, d, init, periodic, now, k, fired, queue, due);
    if |fired| < k {
      assert queue[0] == q[|fired|] && q[|fired|] !in fired;
    } else if queue != [] {
      assert queue[0] in Requeued(q[k..], fired, periodic, due);
    }
  }

  lemma RequeuedLacks(rest: seq<nat>, fired: seq<nat>, periodic: seq<bool>, due: seq<nat>, t: nat)
    requires Known(rest, due) && Known(fired, due) && |periodic| == |due| && t !in rest && t !in fired
    ensures t !in Requeued(rest, fired, periodic, due)
  {
    RequeuedHas(rest, fired, periodic, due);
  }

  ghost predicate AllLater(list: seq<nat>, due: seq<nat>, now: nat)
  {
    forall i :: 0 <= i < |list| ==> list[i] < |due| && now < due[list[i]]
  }

  lemma FiringDone(q: seq<nat>, d: seq<nat>, init: seq<nat>, periodic: seq<bool>, now: nat, k: nat,
                   fired: seq<nat>, queue: seq<nat>, due: seq<nat>)
    requires Firing(q, d, init, periodic, now, k, fired, queue, due)
    requires queue == [] || (queue[0] < |due| && now < due[queue[0]])
    ensures |fired| == k && AllLater(queue, due, now)
  {
    FiringHead(q, d, init, periodic, now, k, fired, queue, due);
    BackIsLater(q, d, init, periodic, now, k, fired, queue, due);
    forall i | 0 <= i < |queue|
      ensures queue[i] < |due| && now < due[queue[i]]
    {
      assert queue[i] in Requeued(q[k..], fired, periodic, due);
    }
  }

  lemma {:induction false} RequeuedSame(rest: seq<nat>, fired: seq<nat>, periodic: seq<bool>, due: seq<nat>, due': seq<nat>, t: nat)
    requires Known(rest, due) && Known(fired, due) && |periodic| == |due| && t < |due| && t !in rest && t !in fired
    requires |due'| == |due| && forall i :: 0 <= i < |due| && i != t ==> due'[i] == due[i]
    ensures Requeued(rest, fired, periodic, due') == Requeued(rest, fired, periodic, due)
    decreases |fired|
  {
    if fired != [] {
      var n := |fired| - 1;
      var f, prior := fired[n], fired[..n];
      RequeuedSame(rest, prior, periodic, due, due', t);
      RequeuedLacks(rest, prior, periodic, due, t);
      assert f in fired;
      SlotSame(Requeued(rest, prior, periodic, due), due, due', t, due[f], 0);
    }
  }

  lemma {:induction false} SlotSame(list: seq<nat>, due: seq<nat>, due': seq<nat>, t: nat, d: nat, i: nat)
    requires Known(list, due) && t !in list && i <= |list|
    requires |due'| == |due| && forall i :: 0 <= i < |due| && i != t ==> due'[i] == due[i]
    ensures Slot(list, due', d, i) == Slot(list, due, d, i)
    decreases |list| - i
  {
    if i < |list| {
      assert list[i] in list;
      SlotSame(list, due, due', t, d, i + 1);
    }
  }

  /** A timer later than all of `a` goes behind `a`. */
  lemma InsertPast(a: seq<nat>, b: seq<nat>, t: nat, due: seq<nat>)
    requires Known(a, due) && Known(b, due) && t < |due| && forall i :: 0 <= i < |a| ==> due[a[i]] <= due[t]
    ensures Known(a + b, due) && Insert(a + b, t, due, Prio) == a + Insert(b, t, due, Prio)
  {
    var k, s := Slot(b, due, due[t], 0), a + b;
    SlotPast(a, b, due, due[t], k);
    SplicePast(a, b, t, k);
  }

  lemma SlotPast(a: seq<nat>, b: seq<nat>, due: seq<nat>, d: nat, k: nat)
    requires Known(a, due) && Known(b, due) && k == Slot(b, due, d, 0)
    requires forall i :: 0 <= i < |a| ==> due[a[i]] <= d
    ensures Known(a + b, due) && Slot(a + b, due, d, 0) == |a| + k
  {
    var s := a + b;
    forall j | 0 <= j < |a| + k
      ensures due[s[j]] <= d
    {
      assert |a| <= j ==> s[j] == b[j - |a|];
    }
    SlotIs(s, due, d, 0, |a| + k);
  }

  lemma SplicePast(a: seq<nat>, b: seq<nat>, t: nat, k: nat)
    requires k <= |b|
    ensures Spliced(a + b, |a| + k, t) == a + Spliced(b, k, t)
  {
    assert (a + b)[..|a| + k] == a + b[..k];
    assert (a + b)[|a| + k..] == b[k..];
  }

  lemma DropFirst(q: seq<nat>, n: nat, k: nat, back: seq<nat>)
    requires n < k <= |q|
    ensures (q[n..k] + back)[1..] == q[n + 1..k] + back && (q[n..k] + back)[0] == q[n]
    ensures q[..n] + [q[n]] == q[..n + 1] && (q[..n] + [q[n]])[..n] == q[..n]
  {
  }

  lemma RestartedMore(d: seq<nat>, init: seq<nat>, periodic: seq<bool>, fired: seq<nat>, now: nat, t: nat)
    requires |d| == |init| == |periodic| && t < |d| && t !in fired
    ensures Restarted(d, init, periodic, fired + [t], now) ==
            Renewed(Restarted(d, init, periodic, fired, now), init, periodic, t, now)
  {
  }

  lemma RequeuedMore(rest: seq<nat>, fired: seq<nat>, periodic: seq<bool>, due: seq<nat>, t: nat)
    requires Known(rest, due) && Known(fired, due) && |periodic| == |due| && t < |due|
    ensures Known(fired + [t], due)
    ensures var back := Requeued(rest, fired, periodic, due);
            Requeued(rest, fired + [t], periodic, due) == if periodic[t] then Insert(back, t, due, Prio) else back
  {
    assert (fired + [t])[..|fired|] == fired;
  }

  /** The deadlines after `t` has fired: its next one, if it is periodic, is a period from `now`. */
  ghost function Renewed(due: seq<nat>, init: seq<nat>, periodic: seq<bool>, t: nat, now: nat): (r: seq<nat>)
    requires |due| == |init| == |periodic| && t < |due|
    ensures |r| == |due| && forall i :: 0 <= i < |due| && i != t ==> r[i] == due[i]
    ensures periodic[t] ==> r[t] == now + init[t]
  {
    if periodic[t] then due[t := now + init[t]] else due
  }

  /** The queue and deadlines when the head has fired. */
  ghost predicate FiredHead(queue: seq<nat>, due: seq<nat>, init: seq<nat>, periodic: seq<bool>, now: nat,
                            queue': seq<nat>, due': seq<nat>)
  {
    && queue != [] && |due| == |init| == |periodic| && queue[0] < |due|
    && due' == Renewed(due, init, periodic, queue[0], now)
    && Known(queue[1..], due')
    && queue' == if periodic[queue[0]] then Insert(queue[1..], queue[0], due', Prio) else queue[1..]
  }

  lemma FiredIs(q: seq<nat>, d: seq<nat>, init: seq<nat>, periodic: seq<bool>, now: nat, queue: seq<nat>, due: seq<nat>)
    requires q != [] && |d| == |init| == |periodic| && q[0] < |d| && Known(q[1..], due)
    requires periodic[q[0]] ==> due == d[q[0] := now + init[q[0]]] && queue == Insert(q[1..], q[0], due, Prio)
    requires !periodic[q[0]] ==> due == d && queue == q[1..]
    ensures FiredHead(q, d, init, periodic, now, queue, due)
  {
  }

  /** What putting the fired timer back, or not, makes of the rest of the queue. */
  lemma QueueStep(a: seq<nat>, rest: seq<nat>, fired: seq<nat>, periodic: seq<bool>, due: seq<nat>, due': seq<nat>,
                  t: nat, init: seq<nat>, now: nat, tail: seq<nat>)
    requires Known(rest, due) && Known(fired, due) && |init| == |periodic| == |due| && t < |due| && t !in rest && t !in fired
    requires due' == Renewed(due, init, periodic, t, now)
    requires Known(a, due') && (periodic[t] ==> NoneLater(a, due', t, |a|))
    requires tail == a + Requeued(rest, fired, periodic, due)
    ensures Known(tail, due') && Known(fired + [t], due')
    ensures (if periodic[t] then Insert(tail, t, due', Prio) else tail) == a + Requeued(rest, fired + [t], periodic, due')
  {
    var back := Requeued(rest, fired, periodic, due);
    RequeuedSame(rest, fired, periodic, due, due', t);
    RequeuedMore(rest, fired, periodic, due', t);
    if periodic[t] {
      InsertPast(a, back, t, due');
    }
  }

  /** Where a check stands between two firings, without the queue itself. */
  lemma FiringRest(q: seq<nat>, d: seq<nat>, init: seq<nat>, periodic: seq<bool>, now: nat, k: nat, fired: seq<nat>,
                   queue: seq<nat>, due: seq<nat>)
    requires Firing(q, d, init, periodic, now, k, fired, queue, due) && |fired| < k
    ensures var n := |fired|;
            && queue != [] && queue[0] == q[n] && queue[1..] == q[n + 1..k] + Requeued(q[k..], fired, periodic, due)
            && q[n] < |due| && q[n] !in fired && q[n] !in q[k..] && fired + [q[n]] == q[..n + 1]
            && Restarted(d, init, periodic, fired + [q[n]], now) == Renewed(due, init, periodic, q[n], now)
  {
    var n := |fired|;
    DropFirst(q, n, k, Requeued(q[k..], fired, periodic, due));
    assert q[n] !in fired && q[n] !in q[k..];
    RestartedMore(d, init, periodic, fired, now, q[n]);
  }

  /** Firing the head takes the check one timer further. */
  lemma FiringStep(q: seq<nat>, d: seq<nat>, init: seq<nat>, periodic: seq<bool>, now: nat, k: nat, fired: seq<nat>,
                   queue: seq<nat>, due: seq<nat>, queue': seq<nat>, due': seq<nat>)
    requires Firing(q, d, init, periodic, now, k, fired, queue, due) && |fired| < k
    requires FiredHead(queue, due, init, periodic, now, queue', due')
    ensures Firing(q, d, init, periodic, now, k, fired + [queue[0]], queue', due')
  {
    var fired' := fired + [queue[0]];
    FiringRest(q, d, init, periodic, now, k, fired, queue, due);
    NextQueue(q, d, init, periodic, now, k, fired, queue, due, queue', due', queue[0]);
    FiringAt(q, d, init, periodic, now, k, |fired| + 1, fired', queue', due', Requeued(q[k..], fired', periodic, due'));
  }

  lemma NextQueue(q: seq<nat>, d: seq<nat>, init: seq<nat>, periodic: seq<bool>, now: nat, k: nat, fired: seq<nat>,
                  queue: seq<nat>, due: seq<nat>, queue': seq<nat>, due': seq<nat>, t: nat)
    requires Firing(q, d, init, periodic, now, k, fired, queue, due) && |fired| < k && t == q[|fired|]
    requires FiredHead(queue, due, init, periodic, now, queue', due')
    ensures Known(q[k..], due') && Known(fired + [t], due')
    ensures queue' == q[|fired| + 1..k] + Requeued(q[k..], fired + [t], periodic, due')
  {
    FiringRest(q, d, init, periodic, now, k, fired, queue, due);
    DueLater(q, d, init, periodic, now, k, fired, queue, due, due', t);
    QueueStep(q[|fired| + 1..k], q[k..], fired, periodic, due, due', t, init, now, queue[1..]);
  }

  lemma FiringAt(q: seq<nat>, d: seq<nat>, init: seq<nat>, periodic: seq<bool>, now: nat, k: nat, n: nat,
                 fired: seq<nat>, queue: seq<nat>, due: seq<nat>, back: seq<nat>)
    requires Planned(q, d, init, periodic, now, k) && n <= k && fired == q[..n]
    requires due == Restarted(d, init, periodic, fired, now) && Known(q[k..], due) && Known(fired, due)
    requires back == Requeued(q[k..], fired, periodic, due) && queue == q[n..k] + back
    ensures Firing(q, d, init, periodic, now, k, fired, queue, due)
  {
  }

  lemma DueLater(q: seq<nat>, d: seq<nat>, init: seq<nat>, periodic: seq<bool>, now: nat, k: nat, fired: seq<nat>,
                 queue: seq<nat>, due: seq<nat>, due': seq<nat>, t: nat)
    requires Firing(q, d, init, periodic, now, k, fired, queue, due) && |fired| < k && t == q[|fired|]
    requires t < |due| && due' == Renewed(due, init, periodic, t, now)
    ensures var a := q[|fired| + 1..k];
            Known(a, due') && (periodic[t] ==> NoneLater(a, due', t, |a|))
  {
    var n := |fired|;
    var a := q[n + 1..k];
    forall i | 0 <= i < |a|
      ensures a[i] < |due'| && (periodic[t] ==> due'[a[i]] <= due'[t])
    {
      var j := n + 1 + i;
      assert a[i] == q[j] && d[q[j]] <= now;
      assert q[j] != q[n] && q[j] !in fired;
    }
  }

  /** The deadlines after the given timers have fired: a period from now for the periodic ones. */
  ghost function Restarted(due: seq<nat>, init: seq<nat>, periodic: seq<bool>, fired: seq<nat>, now: nat): (r: seq<nat>)
    requires |due| == |init| == |periodic|
    ensures |r| == |due|
    ensures forall t :: 0 <= t < |r| ==> r[t] == if t in fired && periodic[t] then now + init[t] else due[t]
  {
    seq(|due|, t requires 0 <= t < |due| => if t in fired && periodic[t] then now + init[t] else due[t])
  }

  /** The timers of `rest`, then the periodic ones of `fired` put in one after the other. */
  ghost function Requeued(rest: seq<nat>, fired: seq<nat>, periodic: seq<bool>, due: seq<nat>): (r: seq<nat>)
    requires Known(rest, due) && Known(fired, due) && |periodic| == |due|
    ensures Known(r, due)
    decreases |fired|
  {
    if fired == [] then rest
    else
      var n := |fired| - 1;
      var before := Requeued(rest, fired[..n], periodic, due);
      if periodic[fired[n]] then
        InsertMembers(before, fired[n], due, Prio);
        Insert(before, fired[n], due, Prio)
      else before
  }

  /** The list with `t` linked in behind its first `pos` members. */
  function Spliced(row: seq<nat>, pos: nat, t: nat): seq<nat>
    requires pos <= |row|
  {
    row[..pos] + [t] + row[pos..]
  }

  /** `pos` is where `t` belongs in the row. */
  ghost predicate AtSlot(row: seq<nat>, due: seq<nat>, t: nat, pos: nat)
  {
    Sorted(row, due) && t < |due| && pos == Slot(row, due, due[t], 0)
  }

  ghost predicate NoneLater(row: seq<nat>, due: seq<nat>, t: nat, pos: nat)
  {
    t < |due| && pos <= |row| && forall j :: 0 <= j < pos ==> row[j] < |due| && due[row[j]] <= due[t]
  }

  function IndexOf(s: seq<nat>, x: nat): (i: nat)
    requires x in s
    ensures i < |s| && s[i] == x
  {
    if s[0] == x then 0 else 1 + IndexOf(s[1..], x)
  }

  lemma WithoutSorted(queue: seq<nat>, due: seq<nat>, t: nat)
    requires Sorted(queue, due) && Distinct(queue)
    ensures Sorted(Without(queue, t), due) && Distinct(Without(queue, t))
    decreases queue
  {
    WithoutDistinct(queue, t);
    if queue != [] {
      var rest := queue[1..];
      WithoutSorted(rest, due, t);
      var w := Without(rest, t);
      forall i | 0 <= i < |w|
        ensures due[queue[0]] <= due[w[i]]
      {
        assert w[i] in rest;
      }
      WithoutFirst(queue, t);
    }
  }
}
