/** The message queue (os/ipc.c): cells of a pool move between a free list, the queue and the threads that
    fill or drain them outside the critical sections. Here the critical sections on the linked cells. */
module MessageQueue {
  import opened Links
  import opened WaitList

  newtype byte = x: int | 0 <= x < 256

  const ENTRY_MAX := 65535

  // ---- the links ----

  /** The queue's head and tail, the free list's head, the counter, and every cell's link word. Each function is
      one critical section, or the one link store outside of them. */
  datatype Header = Header(head: int, tail: int, free: int, entry: nat, next: seq<int>) {

    predicate Known(c: int) { 0 <= c < |next| }

    predicate InBounds()
    {
      (head == NIL || Known(head)) && (tail == NIL || Known(tail)) && (free == NIL || Known(free))
    }

    /** Send, first section: the first free cell goes, if there is one. */
    function TakeFree(): Header
      requires InBounds()
    {
      if free == NIL then this else this.(free := next[free])
    }

    /** Between the sections of an ordinary send. */
    function Clear(c: nat): Header
      requires Known(c)
    {
      this.(next := next[c := NIL])
    }

    function Counted(): nat { if entry < ENTRY_MAX then entry + 1 else entry }

    /** Send, second section. */
    function LinkLast(c: nat): Header
      requires InBounds() && Known(c)
    {
      Header(if head == NIL then c else head, c, free, Counted(), if tail != NIL then next[tail := c] else next)
    }

    /** Urgent send, second section. */
    function LinkFirst(c: nat): Header
      requires InBounds() && Known(c)
    {
      Header(c, if tail == NIL then c else tail, free, Counted(), next[c := head])
    }

    /** Receive, first section. */
    function Unlink(): Header
      requires InBounds() && head != NIL
    {
      Header(next[head], if tail == head then NIL else tail, free, if entry > 0 then entry - 1 else 0, next)
    }

    /** Receive, second section. */
    function GiveBack(c: nat): Header
      requires Known(c)
    {
      this.(free := c, next := next[c := free])
    }

    /** Reset: the first queued cell becomes the first free one, as often as there can be cells. */
    function Drain(turns: nat): Header
      decreases turns
    {
      if turns == 0 || !InBounds() || head == NIL then this else Unlink().GiveBack(head).Drain(turns - 1)
    }

    function Reset(): Header { Drain(|next|).(entry := 0) }
  }

  /** Both lists are chained and share no cell; the tail is the last queued cell exactly when there is a head;
      the entry counter is the queue's length. */
  ghost predicate Agrees(h: Header, queue: seq<nat>, spare: seq<nat>)
  {
    && |h.next| <= ENTRY_MAX && h.InBounds()
    && Chained(h.next, h.head, queue) && Chained(h.next, h.free, spare)
    && Distinct(queue) && Distinct(spare) && (forall c :: c in queue ==> c !in spare)
    && h.tail == (if queue == [] then NIL else queue[|queue| - 1])
    && h.entry == |queue|
  }

  /** A cell in nobody's list: its holder may do with it what it likes. */
  ghost predicate Aside(h: Header, queue: seq<nat>, spare: seq<nat>, c: int)
  {
    h.Known(c) && c !in queue && c !in spare
  }

  /** Link words of all cells but those in `where` and `c` are kept. */
  ghost predicate Kept(h: Header, h': Header, where: seq<nat>, c: int)
  {
    |h'.next| == |h.next| && forall x :: 0 <= x < |h.next| && x !in where && x != c ==> h'.next[x] == h.next[x]
  }

  /** What the code reads in the header tells what the lists hold. */
  lemma HeaderTells(h: Header, queue: seq<nat>, spare: seq<nat>)
    requires Agrees(h, queue, spare)
    ensures (h.head == NIL <==> queue == []) && (h.free == NIL <==> spare == []) && (h.entry == 0 <==> queue == [])
    ensures (queue != [] ==> h.head == queue[0]) && (spare != [] ==> h.free == spare[0])
  {
    if queue != [] {
      assert LinkAt(h.next, queue, 0) && LinkAt(h.next, queue, |queue| - 1);
    }
    if spare != [] {
      assert LinkAt(h.next, spare, 0);
    }
  }

  lemma TakeFreeAgrees(h: Header, queue: seq<nat>, spare: seq<nat>)
    requires Agrees(h, queue, spare)
    ensures Agrees(h.TakeFree(), queue, if spare == [] then [] else spare[1..])
    ensures spare != [] ==> Aside(h.TakeFree(), queue, spare[1..], h.free)
  {
    HeaderTells(h, queue, spare);
    if spare != [] {
      ChainedTail(h.next, h.free, spare);
      DistinctTail(spare);
      assert LinkAt(h.next, spare, 0) && spare[0] in spare && (1 < |spare| ==> LinkAt(h.next, spare, 1));
      assert forall c :: c in spare[1..] ==> c in spare;
    }
  }

  lemma ClearAgrees(h: Header, queue: seq<nat>, spare: seq<nat>, c: nat)
    requires Agrees(h, queue, spare) && Aside(h, queue, spare, c)
    ensures Agrees(h.Clear(c), queue, spare) && Kept(h, h.Clear(c), [], c) && h.Clear(c).next[c] == NIL
  {
    ChainedElsewhere(h.next, h.head, queue, c, NIL);
    ChainedElsewhere(h.next, h.free, spare, c, NIL);
  }

  lemma LinkLastAgrees(h: Header, queue: seq<nat>, spare: seq<nat>, c: nat)
    requires Agrees(h, queue, spare) && Aside(h, queue, spare, c) && h.next[c] == NIL
    ensures Agrees(h.LinkLast(c), queue + [c], spare) && Kept(h, h.LinkLast(c), queue, c)
  {
    HeaderTells(h, queue, spare);
    RoomLeft(h, queue, spare, c);
    DistinctSnoc(queue, c);
    if queue != [] {
      assert LinkAt(h.next, queue, |queue| - 1) && h.tail in queue;
      ChainedAppend(h.next, h.head, queue, c);
      ChainedElsewhere(h.next, h.free, spare, h.tail, c);
    } else {
      AloneIsLast(h.next, c);
    }
  }

  lemma AloneIsLast(next: seq<int>, c: nat)
    requires c < |next| && next[c] == NIL
    ensures Chained(next, c, [] + [c])
  {
    assert [] + [c] == [c];
    assert LinkAt(next, [c], 0);
  }

  lemma LinkFirstAgrees(h: Header, queue: seq<nat>, spare: seq<nat>, c: nat)
    requires Agrees(h, queue, spare) && Aside(h, queue, spare, c)
    ensures Agrees(h.LinkFirst(c), [c] + queue, spare) && Kept(h, h.LinkFirst(c), [], c)
  {
    HeaderTells(h, queue, spare);
    RoomLeft(h, queue, spare, c);
    DistinctCons(c, queue);
    ChainedPush(h.next, h.head, queue, c);
    ChainedElsewhere(h.next, h.free, spare, c, h.head);
  }

  lemma UnlinkAgrees(h: Header, queue: seq<nat>, spare: seq<nat>)
    requires Agrees(h, queue, spare) && queue != []
    ensures h.head != NIL && Agrees(h.Unlink(), queue[1..], spare)
    ensures Aside(h.Unlink(), queue[1..], spare, queue[0])
  {
    HeaderTells(h, queue, spare);
    ChainedTail(h.next, h.head, queue);
    DistinctTail(queue);
    assert queue[0] in queue && forall c :: c in queue[1..] ==> c in queue;
    assert LinkAt(h.next, queue, 0) && (1 < |queue| ==> LinkAt(h.next, queue, 1));
  }

  lemma GiveBackAgrees(h: Header, queue: seq<nat>, spare: seq<nat>, c: nat)
    requires Agrees(h, queue, spare) && Aside(h, queue, spare, c)
    ensures Agrees(h.GiveBack(c), queue, [c] + spare) && Kept(h, h.GiveBack(c), [], c)
  {
    DistinctCons(c, spare);
    ChainedPush(h.next, h.free, spare, c);
    ChainedElsewhere(h.next, h.head, queue, c, h.free);
  }

  /** One turn of the reset loop. */
  lemma TurnAgrees(h: Header, queue: seq<nat>, spare: seq<nat>)
    requires Agrees(h, queue, spare) && queue != []
    ensures h.Known(h.head) && h.head != NIL
    ensures Agrees(h.Unlink().GiveBack(h.head), queue[1..], [queue[0]] + spare)
    ensures Kept(h, h.Unlink().GiveBack(h.head), [], queue[0])
  {
    HeaderTells(h, queue, spare);
    UnlinkAgrees(h, queue, spare);
    GiveBackAgrees(h.Unlink(), queue[1..], spare, queue[0]);
  }

  lemma {:induction false} DrainAgrees(h: Header, queue: seq<nat>, spare: seq<nat>, turns: nat)
    requires Agrees(h, queue, spare) && |queue| <= turns
    ensures Agrees(h.Drain(turns), [], Reverse(queue) + spare) && Kept(h, h.Drain(turns), queue, NIL)
    decreases turns
  {
    HeaderTells(h, queue, spare);
    if queue == [] {
      assert Reverse(queue) + spare == spare;
    } else {
      TurnAgrees(h, queue, spare);
      var m := h.Unlink().GiveBack(h.head);
      DrainAgrees(m, queue[1..], [queue[0]] + spare, turns - 1);
      ReverseStep(queue, spare);
      assert queue[0] in queue && forall c :: c in queue[1..] ==> c in queue;
    }
  }

  lemma ReverseStep(queue: seq<nat>, spare: seq<nat>)
    requires queue != []
    ensures Reverse(queue[1..]) + ([queue[0]] + spare) == Reverse(queue) + spare
  {
  }

  lemma ResetAgrees(h: Header, queue: seq<nat>, spare: seq<nat>)
    requires Agrees(h, queue, spare)
    ensures Agrees(h.Reset(), [], Reverse(queue) + spare) && Kept(h, h.Reset(), queue, NIL)
  {
    QueueFits(h, queue, spare);
    DrainAgrees(h, queue, spare, |h.next|);
  }

  /** A cell in nobody's list leaves room in the counter. */
  lemma RoomLeft(h: Header, queue: seq<nat>, spare: seq<nat>, c: nat)
    requires Agrees(h, queue, spare) && Aside(h, queue, spare, c)
    ensures |queue| < |h.next|
  {
    DistinctCons(c, queue);
    var all := [c] + queue;
    forall i | 0 <= i < |all|
      ensures all[i] < |h.next|
    {
      assert 0 < i ==> LinkAt(h.next, queue, i - 1);
    }
    Pigeonhole(all, |h.next|);
  }

  // ---- the queue in place ----

  class Queue {
    const msgSize: nat
    const maxMsgs: nat
    const next: array<int>
    const pool: array2<byte>
    var head: int
    var tail: int
    var free: int
    var entry: nat
    ghost var queue: seq<nat>
    ghost var spare: seq<nat>

    ghost function Snapshot(): Header
      reads this, next
    {
      Header(head, tail, free, entry, next[..])
    }

    ghost predicate Valid()
      reads this, next
    {
      && maxMsgs <= ENTRY_MAX && next.Length == maxMsgs && pool.Length0 == maxMsgs && pool.Length1 == msgSize
      && Agrees(Snapshot(), queue, spare)
    }

    ghost predicate Apart(c: int)
      reads this, next
    {
      Aside(Snapshot(), queue, spare, c)
    }

    constructor (msgSize: nat, maxMsgs: nat)
      requires maxMsgs <= ENTRY_MAX
      ensures Valid() && fresh(next) && fresh(pool) && this.msgSize == msgSize && this.maxMsgs == maxMsgs
      ensures queue == [] && spare == Countdown(maxMsgs)
    {
      this.msgSize, this.maxMsgs := msgSize, maxMsgs;
      next := new int[maxMsgs];
      pool := new byte[maxMsgs, msgSize];
      head, tail, free, entry := NIL, NIL, NIL, 0;
      queue, spare := [], [];
      new;
      var temp := 0;
      while temp < maxMsgs
        invariant temp <= maxMsgs && Valid() && spare == Countdown(temp) && queue == []
      {
        CountdownHas(temp);
        GiveBack(temp);
        CountdownHas(temp + 1);
        temp := temp + 1;
      }
    }

    /** Send, first section: the first free cell goes to the caller. */
    method TakeFree() returns (msg: int)
      requires Valid()
      modifies this`free, this`spare
      ensures Valid() && Snapshot() == old(Snapshot()).TakeFree()
      ensures old(spare) == [] ==> msg == NIL && spare == []
      ensures old(spare) != [] ==> Apart(msg) && old(spare) == [msg] + spare
    {
      TakeFreeAgrees(Snapshot(), queue, spare);
      HeaderTells(Snapshot(), queue, spare);
      msg := free;
      if msg != NIL {
        free := next[msg];
        spare := spare[1..];
      }
    }

    /** Send, between the sections: the cell is filled, with interrupts enabled. */
    method Fill(msg: int, buffer: seq<byte>)
      requires Valid() && Apart(msg) && |buffer| <= msgSize
      modifies next, pool
      ensures Valid() && Snapshot() == old(Snapshot()).Clear(msg) && next[msg] == NIL
      ensures forall c :: Apart(c) && c != msg ==> next[c] == old(next[c])
      ensures forall k :: 0 <= k < |buffer| ==> pool[msg, k] == buffer[k]
      ensures forall c, k :: 0 <= c < maxMsgs && 0 <= k < msgSize && (c != msg || |buffer| <= k) ==>
                pool[c, k] == old(pool[c, k])
    {
      ClearAgrees(Snapshot(), queue, spare, msg);
      ghost var was := Snapshot();
      next[msg] := NIL;
      assert next[..] == was.next[msg := NIL];
      var k := 0;
      while k < |buffer|
        invariant k <= |buffer| && forall j :: 0 <= j < k ==> pool[msg, j] == buffer[j]
        invariant forall c, j :: 0 <= c < maxMsgs && 0 <= j < msgSize && (c != msg || k <= j) ==>
                    pool[c, j] == old(pool[c, j])
        invariant Snapshot() == was.Clear(msg)
        modifies pool
      {
        pool[msg, k] := buffer[k];
        k := k + 1;
      }
    }

    /** Send, second section: the cell becomes the last of the queue. The counter cannot be at its limit. */
    method LinkLast(msg: int) returns (ok: bool)
      requires Valid() && Apart(msg) && next[msg] == NIL
      modifies this`head, this`tail, this`entry, this`queue, next
      ensures Valid() && ok && queue == old(queue) + [msg] && Snapshot() == old(Snapshot()).LinkLast(msg)
      ensures forall c :: Apart(c) ==> next[c] == old(next[c])
    {
      LinkLastAgrees(Snapshot(), queue, spare, msg);
      RoomLeft(Snapshot(), queue, spare, msg);
      ghost var was := Snapshot();
      if tail != NIL {
        next[tail] := msg;
      }
      assert next[..] == was.LinkLast(msg).next;
      tail := msg;
      if head == NIL {
        head := msg;
      }
      queue := queue + [msg];
      if entry < ENTRY_MAX {
        entry := entry + 1;
      } else {
        return false;
      }
      return true;
    }

    /** Urgent send, second section: the cell becomes the first of the queue. */
    method LinkFirst(msg: int) returns (ok: bool)
      requires Valid() && Apart(msg)
      modifies this`head, this`tail, this`entry, this`queue, next
      ensures Valid() && ok && queue == [msg] + old(queue) && Snapshot() == old(Snapshot()).LinkFirst(msg)
      ensures forall c :: Apart(c) ==> next[c] == old(next[c])
    {
      LinkFirstAgrees(Snapshot(), queue, spare, msg);
      RoomLeft(Snapshot(), queue, spare, msg);
      ghost var was := Snapshot();
      next[msg] := head;
      assert next[..] == was.next[msg := was.head];
      head := msg;
      if tail == NIL {
        tail := msg;
      }
      queue := [msg] + queue;
      if entry < ENTRY_MAX {
        entry := entry + 1;
      } else {
        return false;
      }
      return true;
    }

    /** Receive, first section: the first queued cell goes to the caller. */
    method Unlink() returns (msg: int)
      requires Valid() && queue != []
      modifies this`head, this`tail, this`entry, this`queue
      ensures Valid() && Apart(msg) && old(queue) == [msg] + queue
      ensures msg == old(head) != NIL && Snapshot() == old(Snapshot()).Unlink()
    {
      UnlinkAgrees(Snapshot(), queue, spare);
      HeaderTells(Snapshot(), queue, spare);
      msg := head;
      head := next[msg];
      if tail == msg {
        tail := NIL;
      }
      queue := queue[1..];
      if entry > 0 {
        entry := entry - 1;
      }
    }

    /** Receive, between the sections: at most a cell's worth of bytes is copied out. */
    method Drain(msg: int, size: nat) returns (buffer: seq<byte>)
      requires Valid() && Apart(msg)
      ensures |buffer| == (if size > msgSize then msgSize else size)
      ensures forall k :: 0 <= k < |buffer| ==> buffer[k] == pool[msg, k]
    {
      buffer := [];
      while |buffer| < if size > msgSize then msgSize else size
        invariant |buffer| <= if size > msgSize then msgSize else size
        invariant forall k :: 0 <= k < |buffer| ==> buffer[k] == pool[msg, k]
      {
        buffer := buffer + [pool[msg, |buffer|]];
      }
    }

    /** Receive, second section: the cell becomes the first free one. */
    method GiveBack(msg: int)
      requires Valid() && Apart(msg)
      modifies this`free, this`spare, next
      ensures Valid() && spare == [msg] + old(spare) && Snapshot() == old(Snapshot()).GiveBack(msg)
      ensures forall c :: Apart(c) ==> next[c] == old(next[c])
    {
      GiveBackAgrees(Snapshot(), queue, spare, msg);
      ghost var was := Snapshot();
      next[msg] := free;
      assert next[..] == was.next[msg := was.free];
      free := msg;
      spare := [msg] + spare;
    }

    /** One turn of the reset loop: the first queued cell becomes the first free one. */
    method MoveHead()
      requires Valid() && queue != []
      modifies this`head, this`tail, this`entry, this`queue, this`free, this`spare, next
      ensures Valid() && queue == old(queue)[1..] && spare == [old(queue)[0]] + old(spare)
      ensures old(head) != NIL && Snapshot() == old(Snapshot()).Unlink().GiveBack(old(head))
    {
      var msg := Unlink();
      GiveBack(msg);
    }

    /** Reset: the queued cells join the free ones, the first of the queue first; the counter ends at zero. */
    method Reset()
      requires Valid()
      modifies this`head, this`tail, this`entry, this`queue, this`free, this`spare, next
      ensures Valid() && queue == [] && spare == Reverse(old(queue)) + old(spare)
      ensures Snapshot() == old(Snapshot()).Reset()
      ensures forall c :: 0 <= c < maxMsgs && c !in old(queue) ==> next[c] == old(next[c])
    {
      ghost var turns := maxMsgs;
      ResetAgrees(Snapshot(), queue, spare);
      QueueFits(Snapshot(), queue, spare);
      while head != NIL
        invariant Valid() && |queue| <= turns
        invariant Reverse(queue) + spare == Reverse(old(queue)) + old(spare)
        invariant Snapshot().Drain(turns) == old(Snapshot()).Drain(maxMsgs)
        decreases |queue|
      {
        HeaderTells(Snapshot(), queue, spare);
        ReverseStep(queue, spare);
        MoveHead();
        turns := turns - 1;
      }
      HeaderTells(Snapshot(), queue, spare);
      entry := 0;
    }
  }

  lemma QueueFits(h: Header, queue: seq<nat>, spare: seq<nat>)
    requires Agrees(h, queue, spare)
    ensures |queue| <= |h.next|
  {
    forall i | 0 <= i < |queue|
      ensures queue[i] < |h.next|
    {
      assert LinkAt(h.next, queue, i);
    }
    Pigeonhole(queue, |h.next|);
  }

  /** The cells in the order initialisation leaves them on the free list. */
  ghost function Countdown(n: nat): (s: seq<nat>)
    ensures |s| == n
  {
    if n == 0 then [] else [n - 1] + Countdown(n - 1)
  }

  lemma {:induction false} CountdownHas(n: nat)
    ensures Distinct(Countdown(n))
    ensures forall c :: c in Countdown(n) <==> 0 <= c < n
  {
    if n > 0 {
      CountdownHas(n - 1);
      DistinctCons(n - 1, Countdown(n - 1));
    }
  }
}
