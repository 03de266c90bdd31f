/** Any number of threads on one message queue (os/ipc.c). Every critical section is one step and the copies
    between two sections go byte by byte, so all interleavings the interrupt lock allows are runs here. */
module MessageProtocol {
  import opened WaitList
  import opened MessageQueue

  /** Where a thread stands in a send or receive call. A woken thread has been taken off a wait list with a
      good error code and has not run yet; `msg` is what the cell being drained was sent with. */
  datatype Phase =
    | Idle
    | WaitSend(buf: seq<byte>)
    | WokenSend(buf: seq<byte>)
    | Filling(cell: nat, buf: seq<byte>, done: nat, urgent: bool)
    | WaitRecv(size: nat)
    | WokenRecv(size: nat)
    | Draining(cell: nat, size: nat, got: seq<byte>, msg: seq<byte>)

  /** `msgs` are the messages in the queue as their senders gave them, in the order of `queue`. */
  datatype State = State(
    msgSize: nat, flag: Flag, prio: seq<nat>, phase: seq<Phase>,
    queue: seq<nat>, spare: seq<nat>, cells: seq<seq<byte>>, msgs: seq<seq<byte>>,
    receivers: seq<nat>, senders: seq<nat>)

  /** A call by an idle thread, the next section of a running one, a woken thread going round its loop, a
      waiting thread's timer, or a control call; `block` says whether any waiting time is left. */
  datatype Step =
    | Send(t: nat, buf: seq<byte>, urgent: bool, block: bool)
    | Resend(t: nat, block: bool)
    | FillByte(t: nat)
    | Link(t: nat)
    | Recv(t: nat, size: nat, block: bool)
    | Rerecv(t: nat, block: bool)
    | DrainByte(t: nat)
    | GiveBack(t: nat)
    | Expire(t: nat)
    | ResetAll
    | SetPriority(t: nat, p: nat)

  predicate Holds(p: Phase, c: nat)
  {
    (p.Filling? || p.Draining?) && p.cell == c
  }

  function Wanted(s: State, size: nat): nat { if size > s.msgSize then s.msgSize else size }

  predicate Enabled(s: State, e: Step)
  {
    (e == ResetAll || e.t < |s.phase|) &&
    match e
    case Send(t, buf, _, _) => s.phase[t].Idle? && 0 < |buf| <= s.msgSize
    case Resend(t, _) => s.phase[t].WokenSend?
    case FillByte(t) => s.phase[t].Filling? && s.phase[t].done < |s.phase[t].buf|
    case Link(t) => s.phase[t].Filling? && s.phase[t].done == |s.phase[t].buf|
    case Recv(t, size, _) => s.phase[t].Idle? && 0 < size
    case Rerecv(t, _) => s.phase[t].WokenRecv?
    case DrainByte(t) => s.phase[t].Draining? && |s.phase[t].got| < Wanted(s, s.phase[t].size)
    case GiveBack(t) => s.phase[t].Draining? && |s.phase[t].got| == Wanted(s, s.phase[t].size)
    case Expire(t) => s.phase[t].WaitSend? || s.phase[t].WaitRecv?
    case ResetAll => true
    case SetPriority(_, _) => true
  }

  // ---- the invariant ----

  /** Every cell is in exactly one place: queued, free, or held by exactly one thread. */
  ghost predicate CellsOwned(s: State)
  {
    && Distinct(s.queue) && Distinct(s.spare)
    && Owned(Elems(s.queue), Elems(s.spare), s.phase, |s.cells|)
  }

  ghost predicate Owned(queued: set<nat>, spare: set<nat>, phase: seq<Phase>, n: nat)
  {
    && queued !! spare && (forall c :: c in queued || c in spare ==> c < n)
    && (forall t, c: nat {:trigger Holds(phase[t], c)} ::
          0 <= t < |phase| && Holds(phase[t], c) ==> c < n && c !in queued && c !in spare)
    && (forall t, u, c: nat :: 0 <= t < |phase| && 0 <= u < |phase| && Holds(phase[t], c) && Holds(phase[u], c) ==> t == u)
    && (forall c: nat :: c < n ==> c in queued || c in spare || HeldBySome(phase, c))
  }

  ghost predicate HeldBySome(phase: seq<Phase>, c: nat)
  {
    exists t :: 0 <= t < |phase| && Holds(phase[t], c)
  }

  predicate Receiving(p: Phase) { p.WaitRecv? }

  predicate Sending(p: Phase) { p.WaitSend? }

  ghost predicate ListsAgree(s: State)
  {
    && |s.prio| == |s.phase|
    && Lists(s.receivers, s.phase, Receiving) && Lists(s.senders, s.phase, Sending)
  }

  /** The cell starts with these bytes. */
  ghost predicate Carries(cell: seq<byte>, msg: seq<byte>)
  {
    |msg| <= |cell| && cell[..|msg|] == msg
  }

  /** The bytes in the cells are those of the messages they carry, as far as they have been copied. */
  ghost predicate BytesAgree(s: State)
  {
    && (forall c :: 0 <= c < |s.cells| ==> |s.cells[c]| == s.msgSize)
    && |s.msgs| == |s.queue|
    && (forall i :: 0 <= i < |s.queue| ==> s.queue[i] < |s.cells| && Carries(s.cells[s.queue[i]], s.msgs[i]))
    && (forall t :: 0 <= t < |s.phase| ==> PhaseAgrees(s, s.phase[t]))
  }

  ghost predicate PhaseAgrees(s: State, p: Phase)
  {
    && (p.WaitSend? || p.WokenSend? ==> |p.buf| <= s.msgSize)
    && (p.Filling? ==>
      p.cell < |s.cells| && p.done <= |p.buf| <= s.msgSize && Carries(s.cells[p.cell], p.buf[..p.done]))
    && (p.Draining? ==>
      p.cell < |s.cells| && |p.got| <= Wanted(s, p.size)
      && Carries(s.cells[p.cell], p.got) && Carries(s.cells[p.cell], p.msg))
  }

  function WokenReceivers(s: State): nat { Count(s.phase, (p: Phase) => p.WokenRecv?) }

  function WokenSenders(s: State): nat { Count(s.phase, (p: Phase) => p.WokenSend?) }

  /** No wakeup is lost: while somebody waits, there are as many already woken as there is to be had. */
  ghost predicate NoneForgotten(s: State)
  {
    && (s.receivers != [] ==> WokenReceivers(s) >= |s.queue|)
    && (s.senders != [] ==> WokenSenders(s) >= |s.spare|)
  }

  ghost predicate Inv(s: State)
  {
    CellsOwned(s) && ListsAgree(s) && BytesAgree(s) && NoneForgotten(s)
  }

  // ---- the steps ----

  function At(s: State, t: nat, p: Phase): State
    requires t < |s.phase|
  {
    s.(phase := s.phase[t := p])
  }

  /** First section of a send: take a free cell, wait for one, or give up. */
  function TakeCell(s: State, t: nat, buf: seq<byte>, urgent: bool, block: bool): State
    requires t < |s.phase| == |s.prio| && Known(s.senders, s.prio)
  {
    if s.spare != [] then At(s, t, Filling(s.spare[0], buf, 0, urgent)).(spare := s.spare[1..])
    else if block && !urgent then At(s, t, WaitSend(buf)).(senders := Insert(s.senders, t, s.prio, s.flag))
    else At(s, t, Idle)
  }

  function WakeReceiver(s: State): State
    requires AllWait(s.receivers, s.phase, Receiving)
  {
    if s.receivers == [] then s
    else
      var u := s.receivers[0];
      At(s, u, WokenRecv(s.phase[u].size)).(receivers := s.receivers[1..])
  }

  function Linked(s: State, t: nat): State
    requires t < |s.phase| && s.phase[t].Filling?
  {
    var p := s.phase[t];
    At(s, t, Idle).(
      queue := if p.urgent then [p.cell] + s.queue else s.queue + [p.cell],
      msgs := if p.urgent then [p.buf] + s.msgs else s.msgs + [p.buf])
  }

  /** Second section: the message is linked and one receiver woken. */
  function LinkMsg(s: State, t: nat): State
    requires t < |s.phase| && s.phase[t].Filling? && AllWait(s.receivers, s.phase, Receiving)
  {
    assert AllWait(s.receivers, s.phase[t := Idle], Receiving);
    WakeReceiver(Linked(s, t))
  }

  function TakeMsg(s: State, t: nat, size: nat, block: bool): State
    requires t < |s.phase| == |s.prio| && Known(s.receivers, s.prio) && |s.msgs| == |s.queue|
  {
    if s.queue != [] then
      At(s, t, Draining(s.queue[0], size, [], s.msgs[0])).(queue := s.queue[1..], msgs := s.msgs[1..])
    else if block then At(s, t, WaitRecv(size)).(receivers := Insert(s.receivers, t, s.prio, s.flag))
    else At(s, t, Idle)
  }

  function WakeSender(s: State): State
    requires AllWait(s.senders, s.phase, Sending)
  {
    if s.senders == [] then s
    else
      var u := s.senders[0];
      At(s, u, WokenSend(s.phase[u].buf)).(senders := s.senders[1..])
  }

  function Freed(s: State, t: nat): State
    requires t < |s.phase| && s.phase[t].Draining?
  {
    At(s, t, Idle).(spare := [s.phase[t].cell] + s.spare)
  }

  /** Second section of a receive: the cell is free again and one sender woken. */
  function FreeCell(s: State, t: nat): State
    requires t < |s.phase| && s.phase[t].Draining? && AllWait(s.senders, s.phase, Sending)
  {
    assert AllWait(s.senders, s.phase[t := Idle], Sending);
    WakeSender(Freed(s, t))
  }

  function Released(phase: seq<Phase>): (r: seq<Phase>)
    ensures |r| == |phase|
    ensures forall i :: 0 <= i < |r| ==> r[i] == if phase[i].WaitSend? || phase[i].WaitRecv? then Idle else phase[i]
  {
    if phase == [] then []
    else [if phase[0].WaitSend? || phase[0].WaitRecv? then Idle else phase[0]] + Released(phase[1..])
  }

  function Next(s: State, e: Step): State
    requires Inv(s)
  {
    if !Enabled(s, e) then s
    else
      match e
      case Send(t, buf, urgent, block) => TakeCell(s, t, buf, urgent, block)
      case Resend(t, block) => TakeCell(s, t, s.phase[t].buf, false, block)
      case FillByte(t) =>
        var p := s.phase[t];
        At(s, t, p.(done := p.done + 1)).(cells := s.cells[p.cell := s.cells[p.cell][p.done := p.buf[p.done]]])
      case Link(t) => LinkMsg(s, t)
      case Recv(t, size, block) => TakeMsg(s, t, size, block)
      case Rerecv(t, block) => TakeMsg(s, t, s.phase[t].size, block)
      case DrainByte(t) =>
        var p := s.phase[t];
        At(s, t, p.(got := p.got + [s.cells[p.cell][|p.got|]]))
      case GiveBack(t) => FreeCell(s, t)
      case Expire(t) =>
        At(s, t, Idle).(receivers := Without(s.receivers, t), senders := Without(s.senders, t))
      case ResetAll =>
        s.(phase := Released(s.phase), receivers := [], senders := [],
           queue := [], msgs := [], spare := Reverse(s.queue) + s.spare)
      case SetPriority(t, p) => s.(prio := s.prio[t := p])
  }

  // ---- who owns which cell ----

  lemma HeldElsewhere(phase: seq<Phase>, t: nat, p: Phase)
    requires t < |phase|
    ensures forall c: nat :: HeldBySome(phase, c) && !Holds(phase[t], c) ==> HeldBySome(phase[t := p], c)
    ensures forall c: nat :: Holds(p, c) ==> HeldBySome(phase[t := p], c)
  {
    var now := phase[t := p];
    forall c: nat | HeldBySome(phase, c) && !Holds(phase[t], c)
      ensures HeldBySome(now, c)
    {
      var u :| 0 <= u < |phase| && Holds(phase[u], c);
      assert Holds(now[u], c);
    }
    forall c: nat | Holds(p, c)
      ensures HeldBySome(now, c)
    {
      assert Holds(now[t], c);
    }
  }

  /** A thread moves on with the cell it had, or with none as before. */
  lemma OwnedOn(queued: set<nat>, spare: set<nat>, phase: seq<Phase>, n: nat, t: nat, p: Phase)
    requires Owned(queued, spare, phase, n) && t < |phase| && forall c: nat :: Holds(p, c) == Holds(phase[t], c)
    ensures Owned(queued, spare, phase[t := p], n)
  {
    HeldElsewhere(phase, t, p);
  }

  /** A thread that held nothing takes a cell from a list ... */
  lemma OwnedTaken(queued: set<nat>, spare: set<nat>, phase: seq<Phase>, n: nat, t: nat, p: Phase, cell: nat)
    requires Owned(queued, spare, phase, n) && t < |phase| && (cell in queued || cell in spare)
    requires (forall c: nat :: !Holds(phase[t], c)) && forall c: nat :: Holds(p, c) <==> c == cell
    ensures Owned(queued - {cell}, spare - {cell}, phase[t := p], n)
  {
    assert Holds(p, cell);
    HeldElsewhere(phase, t, p);
  }

  /** ... or gives its cell to one. */
  lemma OwnedGiven(queued: set<nat>, spare: set<nat>, phase: seq<Phase>, n: nat, t: nat, p: Phase, cell: nat, back: bool)
    requires Owned(queued, spare, phase, n) && t < |phase| && Holds(phase[t], cell) && forall c: nat :: !Holds(p, c)
    ensures cell !in queued && cell !in spare
    ensures Owned(if back then queued else queued + {cell}, if back then spare + {cell} else spare, phase[t := p], n)
  {
    HeldElsewhere(phase, t, p);
  }

  lemma OwnedReset(queued: set<nat>, spare: set<nat>, phase: seq<Phase>, now: seq<Phase>, n: nat)
    requires Owned(queued, spare, phase, n) && |now| == |phase|
    requires forall t, c: nat :: 0 <= t < |phase| ==> Holds(now[t], c) == Holds(phase[t], c)
    ensures Owned({}, queued + spare, now, n)
  {
    forall c: nat | HeldBySome(phase, c)
      ensures HeldBySome(now, c)
    {
      var t :| 0 <= t < |phase| && Holds(phase[t], c);
      assert Holds(now[t], c);
    }
  }

  // ---- every step keeps the invariant: ownership ----

  lemma TakeCellOwned(s: State, t: nat, buf: seq<byte>, urgent: bool, block: bool)
    requires CellsOwned(s) && t < |s.phase| == |s.prio| && Known(s.senders, s.prio)
    requires s.phase[t].Idle? || s.phase[t].WokenSend?
    ensures CellsOwned(TakeCell(s, t, buf, urgent, block))
  {
    var q, f, n := Elems(s.queue), Elems(s.spare), |s.cells|;
    if s.spare != [] {
      var cell := s.spare[0];
      DistinctTail(s.spare);
      OwnedTaken(q, f, s.phase, n, t, Filling(cell, buf, 0, urgent), cell);
      assert q - {cell} == q;
    } else if block && !urgent {
      OwnedOn(q, f, s.phase, n, t, WaitSend(buf));
    } else {
      OwnedOn(q, f, s.phase, n, t, Idle);
    }
  }

  lemma TakeMsgOwned(s: State, t: nat, size: nat, block: bool)
    requires CellsOwned(s) && t < |s.phase| == |s.prio| && Known(s.receivers, s.prio) && |s.msgs| == |s.queue|
    requires s.phase[t].Idle? || s.phase[t].WokenRecv?
    ensures CellsOwned(TakeMsg(s, t, size, block))
  {
    var q, f, n := Elems(s.queue), Elems(s.spare), |s.cells|;
    if s.queue != [] {
      var cell := s.queue[0];
      DistinctTail(s.queue);
      OwnedTaken(q, f, s.phase, n, t, Draining(cell, size, [], s.msgs[0]), cell);
      assert f - {cell} == f;
    } else if block {
      OwnedOn(q, f, s.phase, n, t, WaitRecv(size));
    } else {
      OwnedOn(q, f, s.phase, n, t, Idle);
    }
  }

  lemma WakeReceiverOwned(s: State)
    requires CellsOwned(s) && AllWait(s.receivers, s.phase, Receiving)
    ensures CellsOwned(WakeReceiver(s))
  {
    if s.receivers != [] {
      var u := s.receivers[0];
      OwnedOn(Elems(s.queue), Elems(s.spare), s.phase, |s.cells|, u, WokenRecv(s.phase[u].size));
    }
  }

  lemma WakeSenderOwned(s: State)
    requires CellsOwned(s) && AllWait(s.senders, s.phase, Sending)
    ensures CellsOwned(WakeSender(s))
  {
    if s.senders != [] {
      var u := s.senders[0];
      OwnedOn(Elems(s.queue), Elems(s.spare), s.phase, |s.cells|, u, WokenSend(s.phase[u].buf));
    }
  }

  lemma LinkMsgOwned(s: State, t: nat)
    requires CellsOwned(s) && t < |s.phase| && s.phase[t].Filling? && AllWait(s.receivers, s.phase, Receiving)
    ensures CellsOwned(LinkMsg(s, t))
  {
    var p := s.phase[t];
    OwnedGiven(Elems(s.queue), Elems(s.spare), s.phase, |s.cells|, t, Idle, p.cell, false);
    DistinctCons(p.cell, s.queue);
    DistinctSnoc(s.queue, p.cell);
    assert AllWait(s.receivers, s.phase[t := Idle], Receiving);
    WakeReceiverOwned(Linked(s, t));
  }

  lemma FreeCellOwned(s: State, t: nat)
    requires CellsOwned(s) && t < |s.phase| && s.phase[t].Draining? && AllWait(s.senders, s.phase, Sending)
    ensures CellsOwned(FreeCell(s, t))
  {
    var p := s.phase[t];
    OwnedGiven(Elems(s.queue), Elems(s.spare), s.phase, |s.cells|, t, Idle, p.cell, true);
    DistinctCons(p.cell, s.spare);
    assert AllWait(s.senders, s.phase[t := Idle], Sending);
    WakeSenderOwned(Freed(s, t));
  }

  lemma NextOwned(s: State, e: Step)
    requires Inv(s) && Enabled(s, e)
    ensures CellsOwned(Next(s, e))
  {
    var q, f, n := Elems(s.queue), Elems(s.spare), |s.cells|;
    match e {
      case Send(t, buf, urgent, block) => TakeCellOwned(s, t, buf, urgent, block);
      case Resend(t, block) => TakeCellOwned(s, t, s.phase[t].buf, false, block);
      case FillByte(t) => OwnedOn(q, f, s.phase, n, t, s.phase[t].(done := s.phase[t].done + 1));
      case Link(t) => LinkMsgOwned(s, t);
      case Recv(t, size, block) => TakeMsgOwned(s, t, size, block);
      case Rerecv(t, block) => TakeMsgOwned(s, t, s.phase[t].size, block);
      case DrainByte(t) =>
        var p := s.phase[t];
        OwnedOn(q, f, s.phase, n, t, p.(got := p.got + [s.cells[p.cell][|p.got|]]));
      case GiveBack(t) => FreeCellOwned(s, t);
      case Expire(t) => OwnedOn(q, f, s.phase, n, t, Idle);
      case ResetAll =>
        ReverseHas(s.queue);
        DistinctJoin(Reverse(s.queue), s.spare);
        OwnedReset(q, f, s.phase, Released(s.phase), n);
      case SetPriority(t, p) =>
    }
  }

  // ---- every step keeps the invariant: wait lists ----

  lemma OtherLists(s: State, t: nat, p: Phase)
    requires ListsAgree(s) && t < |s.phase|
    requires !Receiving(s.phase[t]) && !Sending(s.phase[t]) && !Receiving(p) && !Sending(p)
    ensures ListsAgree(At(s, t, p))
  {
    ListsOther(s.receivers, s.phase, Receiving, t, p);
    ListsOther(s.senders, s.phase, Sending, t, p);
  }

  lemma TakeCellLists(s: State, t: nat, buf: seq<byte>, urgent: bool, block: bool)
    requires ListsAgree(s) && t < |s.phase| && Known(s.senders, s.prio)
    requires s.phase[t].Idle? || s.phase[t].WokenSend?
    ensures ListsAgree(TakeCell(s, t, buf, urgent, block))
  {
    if s.spare != [] {
      OtherLists(s, t, Filling(s.spare[0], buf, 0, urgent));
    } else if block && !urgent {
      ListsOther(s.receivers, s.phase, Receiving, t, WaitSend(buf));
      ListsJoin(s.senders, s.phase, Sending, t, WaitSend(buf), s.prio, s.flag);
    } else {
      OtherLists(s, t, Idle);
    }
  }

  lemma TakeMsgLists(s: State, t: nat, size: nat, block: bool)
    requires ListsAgree(s) && t < |s.phase| && Known(s.receivers, s.prio) && |s.msgs| == |s.queue|
    requires s.phase[t].Idle? || s.phase[t].WokenRecv?
    ensures ListsAgree(TakeMsg(s, t, size, block))
  {
    if s.queue != [] {
      OtherLists(s, t, Draining(s.queue[0], size, [], s.msgs[0]));
    } else if block {
      ListsOther(s.senders, s.phase, Sending, t, WaitRecv(size));
      ListsJoin(s.receivers, s.phase, Receiving, t, WaitRecv(size), s.prio, s.flag);
    } else {
      OtherLists(s, t, Idle);
    }
  }

  lemma WakeReceiverLists(s: State)
    requires ListsAgree(s)
    ensures ListsAgree(WakeReceiver(s))
  {
    if s.receivers != [] {
      var p := WokenRecv(s.phase[s.receivers[0]].size);
      ListsHead(s.receivers, s.phase, Receiving, p);
      ListsOther(s.senders, s.phase, Sending, s.receivers[0], p);
    }
  }

  lemma WakeSenderLists(s: State)
    requires ListsAgree(s)
    ensures ListsAgree(WakeSender(s))
  {
    if s.senders != [] {
      var p := WokenSend(s.phase[s.senders[0]].buf);
      ListsHead(s.senders, s.phase, Sending, p);
      ListsOther(s.receivers, s.phase, Receiving, s.senders[0], p);
    }
  }

  lemma NextLists(s: State, e: Step)
    requires Inv(s) && Enabled(s, e)
    ensures ListsAgree(Next(s, e))
  {
    match e {
      case Send(t, buf, urgent, block) => TakeCellLists(s, t, buf, urgent, block);
      case Resend(t, block) => TakeCellLists(s, t, s.phase[t].buf, false, block);
      case FillByte(t) => OtherLists(s, t, s.phase[t].(done := s.phase[t].done + 1));
      case Link(t) =>
        OtherLists(s, t, Idle);
        WakeReceiverLists(Linked(s, t));
      case Recv(t, size, block) => TakeMsgLists(s, t, size, block);
      case Rerecv(t, block) => TakeMsgLists(s, t, s.phase[t].size, block);
      case DrainByte(t) =>
        var p := s.phase[t];
        OtherLists(s, t, p.(got := p.got + [s.cells[p.cell][|p.got|]]));
      case GiveBack(t) =>
        OtherLists(s, t, Idle);
        WakeSenderLists(Freed(s, t));
      case Expire(t) =>
        ListsWithout(s.receivers, s.phase, Receiving, t, Idle);
        ListsWithout(s.senders, s.phase, Sending, t, Idle);
      case ResetAll =>
      case SetPriority(t, p) =>
    }
  }

  // ---- every step keeps the invariant: wakeups ----

  function IsWokenRecv(): Phase -> bool { (p: Phase) => p.WokenRecv? }

  function IsWokenSend(): Phase -> bool { (p: Phase) => p.WokenSend? }

  /** What one thread's move from phase to phase does to the two counts. */
  lemma CountsMove(s: State, t: nat, p: Phase)
    requires t < |s.phase|
    ensures WokenReceivers(At(s, t, p)) ==
            WokenReceivers(s) - (if s.phase[t].WokenRecv? then 1 else 0) + if p.WokenRecv? then 1 else 0
    ensures WokenSenders(At(s, t, p)) ==
            WokenSenders(s) - (if s.phase[t].WokenSend? then 1 else 0) + if p.WokenSend? then 1 else 0
  {
    CountUpdate(s.phase, IsWokenRecv(), t, p);
    CountUpdate(s.phase, IsWokenSend(), t, p);
  }

  lemma TakeCellWakes(s: State, t: nat, buf: seq<byte>, urgent: bool, block: bool)
    requires NoneForgotten(s) && t < |s.phase| == |s.prio| && Known(s.senders, s.prio)
    requires s.phase[t].Idle? || s.phase[t].WokenSend?
    ensures NoneForgotten(TakeCell(s, t, buf, urgent, block))
  {
    CountsMove(s, t, if s.spare != [] then Filling(s.spare[0], buf, 0, urgent)
                     else if block && !urgent then WaitSend(buf) else Idle);
  }

  lemma TakeMsgWakes(s: State, t: nat, size: nat, block: bool)
    requires NoneForgotten(s) && t < |s.phase| == |s.prio| && Known(s.receivers, s.prio) && |s.msgs| == |s.queue|
    requires s.phase[t].Idle? || s.phase[t].WokenRecv?
    ensures NoneForgotten(TakeMsg(s, t, size, block))
  {
    CountsMove(s, t, if s.queue != [] then Draining(s.queue[0], size, [], s.msgs[0])
                     else if block then WaitRecv(size) else Idle);
  }

  /** A message more, and a receiver woken if one waits. */
  lemma LinkMsgWakes(s: State, t: nat)
    requires NoneForgotten(s) && t < |s.phase| && s.phase[t].Filling? && AllWait(s.receivers, s.phase, Receiving)
    ensures NoneForgotten(LinkMsg(s, t))
  {
    CountsMove(s, t, Idle);
    var m := Linked(s, t);
    assert AllWait(s.receivers, m.phase, Receiving);
    if s.receivers != [] {
      CountsMove(m, s.receivers[0], WokenRecv(m.phase[s.receivers[0]].size));
    }
  }

  /** A free cell more, and a sender woken if one waits. */
  lemma FreeCellWakes(s: State, t: nat)
    requires NoneForgotten(s) && t < |s.phase| && s.phase[t].Draining? && AllWait(s.senders, s.phase, Sending)
    ensures NoneForgotten(FreeCell(s, t))
  {
    CountsMove(s, t, Idle);
    var m := Freed(s, t);
    assert AllWait(s.senders, m.phase, Sending);
    if s.senders != [] {
      CountsMove(m, s.senders[0], WokenSend(m.phase[s.senders[0]].buf));
    }
  }

  lemma NextWakes(s: State, e: Step)
    requires Inv(s) && Enabled(s, e)
    ensures NoneForgotten(Next(s, e))
  {
    match e {
      case Send(t, buf, urgent, block) => TakeCellWakes(s, t, buf, urgent, block);
      case Resend(t, block) => TakeCellWakes(s, t, s.phase[t].buf, false, block);
      case FillByte(t) => CountsMove(s, t, s.phase[t].(done := s.phase[t].done + 1));
      case Link(t) => LinkMsgWakes(s, t);
      case Recv(t, size, block) => TakeMsgWakes(s, t, size, block);
      case Rerecv(t, block) => TakeMsgWakes(s, t, s.phase[t].size, block);
      case DrainByte(t) =>
        var p := s.phase[t];
        CountsMove(s, t, p.(got := p.got + [s.cells[p.cell][|p.got|]]));
      case GiveBack(t) => FreeCellWakes(s, t);
      case Expire(t) =>
        CountsMove(s, t, Idle);
        assert s.receivers == [] ==> Without(s.receivers, t) == [];
        assert s.senders == [] ==> Without(s.senders, t) == [];
      case ResetAll =>
      case SetPriority(t, p) =>
    }
  }

  // ---- every step keeps the invariant: bytes ----

  lemma PhasesAgree(s: State, t: nat, p: Phase)
    requires BytesAgree(s) && t < |s.phase| && PhaseAgrees(s, p)
    ensures BytesAgree(At(s, t, p))
  {
    var r := At(s, t, p);
    forall u | 0 <= u < |r.phase|
      ensures PhaseAgrees(r, r.phase[u])
    {
      assert PhaseAgrees(s, s.phase[u]);
    }
  }

  /** A byte goes into the cell of the thread that fills it; nobody else looks at that cell. */
  lemma FillByteBytes(s: State, t: nat)
    requires CellsOwned(s) && BytesAgree(s) && Enabled(s, FillByte(t))
    ensures var p := s.phase[t];
            && PhaseAgrees(s, p)
            && BytesAgree(At(s, t, p.(done := p.done + 1)).(cells := s.cells[p.cell := s.cells[p.cell][p.done := p.buf[p.done]]]))
  {
    var p := s.phase[t];
    assert PhaseAgrees(s, p);
    var now := s.cells[p.cell := s.cells[p.cell][p.done := p.buf[p.done]]];
    var r := At(s, t, p.(done := p.done + 1)).(cells := now);
    assert Holds(p, p.cell);
    forall u | 0 <= u < |r.phase|
      ensures PhaseAgrees(r, r.phase[u])
    {
      if u == t {
        assert p.buf[..p.done + 1] == p.buf[..p.done] + [p.buf[p.done]];
        assert now[p.cell][..p.done + 1] == s.cells[p.cell][..p.done] + [p.buf[p.done]];
      } else {
        var o := s.phase[u];
        assert PhaseAgrees(s, o);
        assert o.Filling? || o.Draining? ==> Holds(o, o.cell) && o.cell != p.cell;
      }
    }
    forall i | 0 <= i < |r.queue|
      ensures Carries(now[r.queue[i]], r.msgs[i])
    {
      assert r.queue[i] in Elems(s.queue);
    }
  }

  lemma LinkedBytes(s: State, t: nat)
    requires BytesAgree(s) && Enabled(s, Link(t))
    ensures BytesAgree(Linked(s, t))
  {
    var p, r := s.phase[t], Linked(s, t);
    assert PhaseAgrees(s, p);
    assert p.buf[..p.done] == p.buf;
    PhasesAgree(s, t, Idle);
    forall i | 0 <= i < |r.queue|
      ensures r.queue[i] < |r.cells| && Carries(r.cells[r.queue[i]], r.msgs[i])
    {
      var j := if p.urgent then i - 1 else i;
      if 0 <= j < |s.queue| {
        assert r.queue[i] == s.queue[j] && r.msgs[i] == s.msgs[j];
      }
    }
    forall u | 0 <= u < |r.phase|
      ensures PhaseAgrees(r, r.phase[u])
    {
      assert PhaseAgrees(At(s, t, Idle), r.phase[u]);
    }
  }

  lemma FreedBytes(s: State, t: nat)
    requires BytesAgree(s) && t < |s.phase| && s.phase[t].Draining?
    ensures BytesAgree(Freed(s, t))
  {
    PhasesAgree(s, t, Idle);
    var m, r := At(s, t, Idle), Freed(s, t);
    forall u | 0 <= u < |r.phase|
      ensures PhaseAgrees(r, r.phase[u])
    {
      assert PhaseAgrees(m, m.phase[u]);
    }
  }

  lemma FieldsBytes(s: State, r: State)
    requires BytesAgree(s) && r.msgSize == s.msgSize && r.cells == s.cells && r.phase == s.phase
    requires |r.msgs| == |r.queue|
    requires forall i :: 0 <= i < |r.queue| ==> r.queue[i] < |r.cells| && Carries(r.cells[r.queue[i]], r.msgs[i])
    ensures BytesAgree(r)
  {
    forall u | 0 <= u < |r.phase|
      ensures PhaseAgrees(r, r.phase[u])
    {
      assert PhaseAgrees(s, s.phase[u]);
    }
  }

  lemma TakeCellBytes(s: State, t: nat, buf: seq<byte>, urgent: bool, block: bool)
    requires CellsOwned(s) && BytesAgree(s) && t < |s.phase| == |s.prio| && Known(s.senders, s.prio) && |buf| <= s.msgSize
    ensures BytesAgree(TakeCell(s, t, buf, urgent, block))
  {
    var r := TakeCell(s, t, buf, urgent, block);
    if s.spare != [] {
      assert s.spare[0] in Elems(s.spare);
      assert buf[..0] == s.cells[s.spare[0]][..0];
    }
    PhasesAgree(s, t, r.phase[t]);
    FieldsBytes(At(s, t, r.phase[t]), r);
  }

  lemma TakeMsgBytes(s: State, t: nat, size: nat, block: bool)
    requires BytesAgree(s) && t < |s.phase| == |s.prio| && Known(s.receivers, s.prio)
    ensures BytesAgree(TakeMsg(s, t, size, block))
  {
    var r := TakeMsg(s, t, size, block);
    if s.queue != [] {
      assert Carries(s.cells[s.queue[0]], s.msgs[0]);
      assert s.cells[s.queue[0]][..0] == [];
    }
    PhasesAgree(s, t, r.phase[t]);
    FieldsBytes(At(s, t, r.phase[t]), r);
  }

  lemma WakeReceiverBytes(s: State)
    requires BytesAgree(s) && AllWait(s.receivers, s.phase, Receiving)
    ensures BytesAgree(WakeReceiver(s))
  {
    if s.receivers != [] {
      var u := s.receivers[0];
      var p := WokenRecv(s.phase[u].size);
      PhasesAgree(s, u, p);
      FieldsBytes(At(s, u, p), WakeReceiver(s));
    }
  }

  lemma WakeSenderBytes(s: State)
    requires BytesAgree(s) && AllWait(s.senders, s.phase, Sending)
    ensures BytesAgree(WakeSender(s))
  {
    if s.senders != [] {
      var u := s.senders[0];
      assert PhaseAgrees(s, s.phase[u]);
      var p := WokenSend(s.phase[u].buf);
      PhasesAgree(s, u, p);
      FieldsBytes(At(s, u, p), WakeSender(s));
    }
  }

  lemma DrainByteBytes(s: State, t: nat)
    requires BytesAgree(s) && Enabled(s, DrainByte(t))
    ensures var p := s.phase[t];
            && PhaseAgrees(s, p)
            && BytesAgree(At(s, t, p.(got := p.got + [s.cells[p.cell][|p.got|]])))
  {
    var p := s.phase[t];
    assert PhaseAgrees(s, p);
    var now := p.got + [s.cells[p.cell][|p.got|]];
    assert s.cells[p.cell][..|now|] == now;
    PhasesAgree(s, t, p.(got := now));
  }

  lemma ResetBytes(s: State)
    requires Inv(s)
    ensures BytesAgree(Next(s, ResetAll))
  {
    var r := Next(s, ResetAll);
    forall u | 0 <= u < |r.phase|
      ensures PhaseAgrees(r, r.phase[u])
    {
      assert PhaseAgrees(s, s.phase[u]);
    }
  }

  lemma LinkMsgBytes(s: State, t: nat)
    requires ListsAgree(s) && BytesAgree(s) && Enabled(s, Link(t))
    ensures BytesAgree(LinkMsg(s, t))
  {
    LinkedBytes(s, t);
    assert AllWait(s.receivers, s.phase[t := Idle], Receiving);
    WakeReceiverBytes(Linked(s, t));
  }

  lemma FreeCellBytes(s: State, t: nat)
    requires ListsAgree(s) && BytesAgree(s) && Enabled(s, GiveBack(t))
    ensures BytesAgree(FreeCell(s, t))
  {
    FreedBytes(s, t);
    assert AllWait(s.senders, s.phase[t := Idle], Sending);
    WakeSenderBytes(Freed(s, t));
  }

  lemma NextBytes(s: State, e: Step)
    requires Inv(s) && Enabled(s, e)
    ensures BytesAgree(Next(s, e))
  {
    match e {
      case Send(t, buf, urgent, block) => TakeCellBytes(s, t, buf, urgent, block);
      case Resend(t, block) =>
        assert PhaseAgrees(s, s.phase[t]);
        TakeCellBytes(s, t, s.phase[t].buf, false, block);
      case FillByte(t) => FillByteBytes(s, t);
      case Link(t) => LinkMsgBytes(s, t);
      case Recv(t, size, block) => TakeMsgBytes(s, t, size, block);
      case Rerecv(t, block) => TakeMsgBytes(s, t, s.phase[t].size, block);
      case DrainByte(t) => DrainByteBytes(s, t);
      case GiveBack(t) => FreeCellBytes(s, t);
      case Expire(t) =>
        PhasesAgree(s, t, Idle);
        FieldsBytes(At(s, t, Idle), Next(s, e));
      case ResetAll => ResetBytes(s);
      case SetPriority(t, p) => FieldsBytes(s, Next(s, e));
    }
  }

  // ---- runs ----

  lemma NextKeepsInv(s: State, e: Step)
    requires Inv(s)
    ensures Inv(Next(s, e))
  {
    if Enabled(s, e) {
      NextOwned(s, e);
      NextLists(s, e);
      NextBytes(s, e);
      NextWakes(s, e);
    }
  }

  /** Any interleaving of the threads' sections, copies, timeouts and control calls; disabled steps are skipped. */
  function Run(s: State, steps: seq<Step>): (r: State)
    requires Inv(s)
    ensures Inv(r)
    decreases |steps|
  {
    if steps == [] then s
    else
      NextKeepsInv(s, steps[0]);
      Run(Next(s, steps[0]), steps[1..])
  }

  /** A queue as initialisation leaves it, with no thread in a call. */
  ghost predicate Initial(s: State)
  {
    && |s.prio| == |s.phase| && (forall t :: 0 <= t < |s.phase| ==> s.phase[t].Idle?)
    && s.queue == [] && s.msgs == [] && s.receivers == [] && s.senders == []
    && s.spare == Countdown(|s.cells|) && forall c :: 0 <= c < |s.cells| ==> |s.cells[c]| == s.msgSize
  }

  lemma InitialInv(s: State)
    requires Initial(s)
    ensures Inv(s)
  {
    CountdownHas(|s.cells|);
  }

  /** In every reachable state: while a receiver waits, at least as many woken receivers are on their way as
      there are messages, so a message and a waiting receiver together mean a woken one; the same for senders
      and free cells. */
  lemma NoLostWakeup(s: State, steps: seq<Step>)
    requires Initial(s)
    ensures Inv(s)
    ensures var r := Run(s, steps);
            && (r.receivers != [] && r.queue != [] ==> exists t :: 0 <= t < |r.phase| && r.phase[t].WokenRecv?)
            && (r.senders != [] && r.spare != [] ==> exists t :: 0 <= t < |r.phase| && r.phase[t].WokenSend?)
            && NoneForgotten(r)
  {
    InitialInv(s);
    var r := Run(s, steps);
    if r.receivers != [] && r.queue != [] {
      CountedSomewhere(r.phase, IsWokenRecv());
    }
    if r.senders != [] && r.spare != [] {
      CountedSomewhere(r.phase, IsWokenSend());
    }
  }

  /** In every reachable state each cell is in exactly one place, the queue never outgrows the pool, and no
      free cell is missing: if all threads are idle and the queue is empty, every cell is free. */
  lemma CellsConserved(s: State, steps: seq<Step>)
    requires Initial(s)
    ensures Inv(s)
    ensures var r := Run(s, steps);
            && CellsOwned(r) && |r.queue| <= |r.cells|
            && ((forall t :: 0 <= t < |r.phase| ==> r.phase[t].Idle?) && r.queue == [] ==>
                 forall c: nat :: c < |r.cells| ==> c in r.spare)
  {
    InitialInv(s);
    var r := Run(s, steps);
    assert forall i :: 0 <= i < |r.queue| ==> r.queue[i] in Elems(r.queue);
    Pigeonhole(r.queue, |r.cells|);
    forall c: nat | c < |r.cells| && (forall t :: 0 <= t < |r.phase| ==> r.phase[t].Idle?) && r.queue == []
      ensures c in r.spare
    {
      assert c in Elems(r.queue) || c in Elems(r.spare) || HeldBySome(r.phase, c);
    }
  }

  /** In every reachable state a receiver that has copied everything it asked for has the bytes the message
      was sent with, as far as both go; and while it copies, nobody touches its cell. */
  lemma DeliveredAsSent(s: State, steps: seq<Step>, t: nat)
    requires Initial(s)
    ensures Inv(s)
    ensures var r := Run(s, steps);
            t < |r.phase| && r.phase[t].Draining? && |r.phase[t].got| == Wanted(r, r.phase[t].size) ==>
              var p := r.phase[t];
              && |p.msg| <= r.msgSize
              && if |p.got| <= |p.msg| then p.got == p.msg[..|p.got|] else p.got[..|p.msg|] == p.msg
  {
    InitialInv(s);
    var r := Run(s, steps);
    if t < |r.phase| && r.phase[t].Draining? {
      var p := r.phase[t];
      assert PhaseAgrees(r, p);
      var cell := r.cells[p.cell];
      if |p.got| <= |p.msg| {
        assert cell[..|p.msg|][..|p.got|] == cell[..|p.got|];
      } else {
        assert cell[..|p.got|][..|p.msg|] == cell[..|p.msg|];
      }
    }
  }

  // ---- order ----

  /** The message a step puts into the queue, and the one it takes out. */
  function Put(s: State, e: Step): seq<seq<byte>>
  {
    if Enabled(s, e) && e.Link? then [s.phase[e.t].buf] else []
  }

  function Taken(s: State, e: Step): seq<seq<byte>>
  {
    if Enabled(s, e) && (e.Recv? || e.Rerecv?) && s.queue != [] && s.msgs != [] then [s.msgs[0]] else []
  }

  predicate Ordinary(s: State, e: Step)
  {
    e != ResetAll && (Enabled(s, e) && e.Link? ==> !s.phase[e.t].urgent)
  }

  /** Messages come out in the order they were linked, an urgent one before all others. */
  lemma StepOrder(s: State, e: Step)
    requires Inv(s)
    ensures Ordinary(s, e) ==> s.msgs + Put(s, e) == Taken(s, e) + Next(s, e).msgs
    ensures Enabled(s, e) && e.Link? && s.phase[e.t].urgent ==> Next(s, e).msgs == Put(s, e) + s.msgs
    ensures e == ResetAll ==> Next(s, e).msgs == []
  {
    if Taken(s, e) != [] {
      assert s.msgs == [s.msgs[0]] + s.msgs[1..];
    } else {
      assert Next(s, e).msgs == if Enabled(s, e) && e.Link? && s.phase[e.t].urgent then Put(s, e) + s.msgs
                                else if e == ResetAll then [] else s.msgs + Put(s, e);
    }
  }

  function AllPut(s: State, steps: seq<Step>): seq<seq<byte>>
    requires Inv(s)
    decreases |steps|
  {
    if steps == [] then []
    else
      NextKeepsInv(s, steps[0]);
      Put(s, steps[0]) + AllPut(Next(s, steps[0]), steps[1..])
  }

  function AllTaken(s: State, steps: seq<Step>): seq<seq<byte>>
    requires Inv(s)
    decreases |steps|
  {
    if steps == [] then []
    else
      NextKeepsInv(s, steps[0]);
      Taken(s, steps[0]) + AllTaken(Next(s, steps[0]), steps[1..])
  }

  ghost predicate AllOrdinary(s: State, steps: seq<Step>)
    requires Inv(s)
    decreases |steps|
  {
    steps == [] ||
    (NextKeepsInv(s, steps[0]);
     Ordinary(s, steps[0]) && AllOrdinary(Next(s, steps[0]), steps[1..]))
  }

  /** First in, first out over whole runs: without urgent sends and resets, what was taken followed by what is
      still queued is what was there followed by what was put. */
  lemma {:induction false} QueueIsFifo(s: State, steps: seq<Step>)
    requires Inv(s) && AllOrdinary(s, steps)
    ensures s.msgs + AllPut(s, steps) == AllTaken(s, steps) + Run(s, steps).msgs
    decreases |steps|
  {
    if steps != [] {
      var e, rest := steps[0], steps[1..];
      NextKeepsInv(s, e);
      var m := Next(s, e);
      StepOrder(s, e);
      QueueIsFifo(m, rest);
      FifoGlue(s.msgs, Put(s, e), AllPut(m, rest), Taken(s, e), m.msgs, AllTaken(m, rest), Run(m, rest).msgs);
    }
  }
}
