/** What each step of the message queue protocol does to the thread that takes it, to the lists, and to everybody
    else (os/ipc.c). */
module MessageSteps {
  import opened WaitList
  import opened MessageQueue
  import opened MessageProtocol

  /** At most threads `t` and `u` are elsewhere than before. */
  ghost predicate OnlyMove(s: State, r: State, t: nat, u: nat)
  {
    && |r.phase| == |s.phase| && (forall v :: 0 <= v < |s.phase| && v != t && v != u ==> r.phase[v] == s.phase[v])
    && r.msgSize == s.msgSize && r.flag == s.flag && r.prio == s.prio
  }

  ghost predicate SameQueue(s: State, r: State) { r.queue == s.queue && r.msgs == s.msgs && r.cells == s.cells }

  /** Who may take which step; any other step changes nothing. */
  lemma WhoMayStep(s: State, e: Step)
    requires Inv(s)
    ensures e.Send? ==> (Enabled(s, e) <==> e.t < |s.phase| && s.phase[e.t].Idle? && 0 < |e.buf| <= s.msgSize)
    ensures e.Resend? ==> (Enabled(s, e) <==> e.t < |s.phase| && s.phase[e.t].WokenSend?)
    ensures e.FillByte? ==>
              (Enabled(s, e) <==> e.t < |s.phase| && s.phase[e.t].Filling? && s.phase[e.t].done < |s.phase[e.t].buf|)
    ensures e.Link? ==>
              (Enabled(s, e) <==> e.t < |s.phase| && s.phase[e.t].Filling? && s.phase[e.t].done == |s.phase[e.t].buf|)
    ensures e.Recv? ==> (Enabled(s, e) <==> e.t < |s.phase| && s.phase[e.t].Idle? && 0 < e.size)
    ensures e.Rerecv? ==> (Enabled(s, e) <==> e.t < |s.phase| && s.phase[e.t].WokenRecv?)
    ensures e.DrainByte? || e.GiveBack? ==>
              var size := if e.t < |s.phase| && s.phase[e.t].Draining? then s.phase[e.t].size else 0;
              var wanted := if size > s.msgSize then s.msgSize else size;
              Enabled(s, e) <==>
                && e.t < |s.phase| && s.phase[e.t].Draining?
                && if e.DrainByte? then |s.phase[e.t].got| < wanted else |s.phase[e.t].got| == wanted
    ensures e.Expire? ==> (Enabled(s, e) <==> e.t < |s.phase| && (s.phase[e.t].WaitSend? || s.phase[e.t].WaitRecv?))
    ensures e.ResetAll? ==> Enabled(s, e)
    ensures e.SetPriority? ==> (Enabled(s, e) <==> e.t < |s.phase|)
    ensures !Enabled(s, e) ==> Next(s, e) == s
  {
  }

  lemma ListsKnown(s: State)
    requires Inv(s)
    ensures Known(s.senders, s.prio) && Known(s.receivers, s.prio)
  {
  }

  /** A send has the first free cell; without one it waits in its place in line, unless it is urgent or has no
      time left: then it returns and nothing has happened. */
  lemma SendTakesOrWaits(s: State, e: Step)
    requires Inv(s) && (e.Send? || e.Resend?) && Enabled(s, e)
    ensures Known(s.senders, s.prio)
    ensures var r, t := Next(s, e), e.t;
            var buf, urgent := if e.Send? then e.buf else s.phase[t].buf, e.Send? && e.urgent;
            && OnlyMove(s, r, t, t) && SameQueue(s, r) && r.receivers == s.receivers
            && if s.spare != [] then
                 r.phase[t] == Filling(s.spare[0], buf, 0, urgent) && s.spare == [s.spare[0]] + r.spare
                 && r.senders == s.senders
               else if e.block && !urgent then
                 r.phase[t] == WaitSend(buf) && r.spare == [] && InLine(s.senders, t, s.prio, s.flag, r.senders)
               else r.phase[t] == Idle && r.spare == [] && r.senders == s.senders
  {
    ListsKnown(s);
    if s.spare != [] {
      assert s.spare == [s.spare[0]] + s.spare[1..];
    } else if e.block {
      JoinsInLine(s.senders, e.t, s.prio, s.flag);
    }
  }

  /** A receive has the first message; without one it waits in its place in line, or returns with nothing done
      when it has no time left. */
  lemma RecvTakesOrWaits(s: State, e: Step)
    requires Inv(s) && (e.Recv? || e.Rerecv?) && Enabled(s, e)
    ensures Known(s.receivers, s.prio)
    ensures var r, t := Next(s, e), e.t;
            var size := if e.Recv? then e.size else s.phase[t].size;
            && OnlyMove(s, r, t, t) && r.cells == s.cells && r.spare == s.spare && r.senders == s.senders
            && if s.queue != [] then
                 && s.msgs != [] && r.phase[t] == Draining(s.queue[0], size, [], s.msgs[0])
                 && s.queue == [s.queue[0]] + r.queue && s.msgs == [s.msgs[0]] + r.msgs && r.receivers == s.receivers
               else if e.block then
                 && r.phase[t] == WaitRecv(size) && SameQueue(s, r)
                 && InLine(s.receivers, t, s.prio, s.flag, r.receivers)
               else r.phase[t] == Idle && SameQueue(s, r) && r.receivers == s.receivers
  {
    ListsKnown(s);
    if s.queue != [] {
      assert s.queue == [s.queue[0]] + s.queue[1..] && s.msgs == [s.msgs[0]] + s.msgs[1..];
    } else if e.block {
      JoinsInLine(s.receivers, e.t, s.prio, s.flag);
    }
  }

  /** A message that is linked wakes the first receiver in line, and nobody else. */
  lemma LinkWakesFirst(s: State, t: nat)
    requires Inv(s) && Enabled(s, Link(t))
    ensures var r, p := Next(s, Link(t)), s.phase[t];
            && r.cells == s.cells && r.spare == s.spare && r.senders == s.senders
            && r.queue == (if p.urgent then [p.cell] + s.queue else s.queue + [p.cell])
            && r.msgs == (if p.urgent then [p.buf] + s.msgs else s.msgs + [p.buf])
            && if s.receivers == [] then OnlyMove(s, r, t, t) && r.phase[t] == Idle && r.receivers == []
               else
                 var u := s.receivers[0];
                 && u != t && u < |s.phase| && s.phase[u].WaitRecv? && OnlyMove(s, r, t, u) && r.phase[t] == Idle
                 && r.phase[u] == WokenRecv(s.phase[u].size) && s.receivers == [u] + r.receivers
  {
    if s.receivers != [] {
      assert s.phase[s.receivers[0]].WaitRecv?;
    }
  }

  /** A cell that is given back wakes the first sender in line, and nobody else. */
  lemma GiveBackWakesFirst(s: State, t: nat)
    requires Inv(s) && Enabled(s, GiveBack(t))
    ensures var r := Next(s, GiveBack(t));
            && SameQueue(s, r) && r.receivers == s.receivers && r.spare == [s.phase[t].cell] + s.spare
            && if s.senders == [] then OnlyMove(s, r, t, t) && r.phase[t] == Idle && r.senders == []
               else
                 var u := s.senders[0];
                 && u != t && u < |s.phase| && s.phase[u].WaitSend? && OnlyMove(s, r, t, u) && r.phase[t] == Idle
                 && r.phase[u] == WokenSend(s.phase[u].buf) && s.senders == [u] + r.senders
  {
    if s.senders != [] {
      assert s.phase[s.senders[0]].WaitSend?;
    }
  }

  /** A byte at a time goes into the sender's cell, and comes out of the receiver's. */
  lemma CopiesOneByte(s: State, e: Step)
    requires Inv(s) && (e.FillByte? || e.DrainByte?) && Enabled(s, e)
    ensures var r, t, p := Next(s, e), e.t, s.phase[e.t];
            && OnlyMove(s, r, t, t) && r.queue == s.queue && r.msgs == s.msgs && r.spare == s.spare
            && r.receivers == s.receivers && r.senders == s.senders && p.cell < |s.cells| == |r.cells|
            && (forall c :: 0 <= c < |s.cells| && c != p.cell ==> r.cells[c] == s.cells[c])
            && (e.FillByte? ==>
                 && r.phase[t] == Filling(p.cell, p.buf, p.done + 1, p.urgent)
                 && p.done < |s.cells[p.cell]| && r.cells[p.cell] == s.cells[p.cell][p.done := p.buf[p.done]])
            && (e.DrainByte? ==>
                 && r.cells == s.cells && |p.got| < |s.cells[p.cell]|
                 && r.phase[t] == Draining(p.cell, p.size, p.got + [s.cells[p.cell][|p.got|]], p.msg))
  {
    assert PhaseAgrees(s, s.phase[e.t]);
  }

  /** A timeout takes its thread out of line, out of the call, and leaves all else alone. */
  lemma TimerEndsWaiting(s: State, t: nat)
    requires Inv(s) && Enabled(s, Expire(t))
    ensures var r := Next(s, Expire(t));
            && OnlyMove(s, r, t, t) && r.phase[t] == Idle && SameQueue(s, r) && r.spare == s.spare
            && LeftLine(s.receivers, t, r.receivers) && LeftLine(s.senders, t, r.senders)
  {
    LeavesLine(s.receivers, t);
    LeavesLine(s.senders, t);
  }

  /** A reset sends everybody who waits out of the call, nobody else, and makes every queued cell free. */
  lemma ResetEndsWaiting(s: State)
    requires Inv(s)
    ensures var r := Next(s, ResetAll);
            && |r.phase| == |s.phase|
            && (forall u :: 0 <= u < |s.phase| ==>
                 r.phase[u] == if s.phase[u].WaitSend? || s.phase[u].WaitRecv? then Idle else s.phase[u])
            && r.receivers == r.senders == [] && r.queue == [] && r.msgs == [] && r.cells == s.cells
            && Elems(r.spare) == Elems(s.queue) + Elems(s.spare) && |r.spare| == |s.queue| + |s.spare|
            && r.msgSize == s.msgSize && r.flag == s.flag && r.prio == s.prio
  {
    ReverseHas(s.queue);
  }

  /** A new priority is the thread's from then on; who waits keeps its place. */
  lemma PriorityChanges(s: State, t: nat, p: nat)
    requires Inv(s) && t < |s.phase|
    ensures var r := Next(s, SetPriority(t, p));
            && |r.prio| == |s.prio| == |s.phase| && r == s.(prio := r.prio) && r.prio[t] == p
            && forall u :: 0 <= u < |s.prio| && u != t ==> r.prio[u] == s.prio[u]
  {
  }

  /** A waiting receiver goes on waiting until a message is linked while it is first in line, its timer runs out,
      or the queue is reset. */
  lemma ReceiverWaitsUntil(s: State, t: nat, e: Step)
    requires Inv(s) && t < |s.phase| && s.phase[t].WaitRecv?
    ensures var r := Next(s, e);
            && t < |r.phase| && s.receivers != []
            && r.phase[t] == (if Enabled(s, e) && e.Link? && s.receivers[0] == t then WokenRecv(s.phase[t].size)
                              else if e == Expire(t) || e == ResetAll then Idle else s.phase[t])
  {
    assert t in s.receivers;
    if Enabled(s, e) {
      match e {
        case Send(u, _, _, _) => SendTakesOrWaits(s, e);
        case Resend(u, _) => SendTakesOrWaits(s, e);
        case Recv(u, _, _) => RecvTakesOrWaits(s, e);
        case Rerecv(u, _) => RecvTakesOrWaits(s, e);
        case Link(u) => LinkWakesFirst(s, u);
        case GiveBack(u) => GiveBackWakesFirst(s, u);
        case FillByte(u) => CopiesOneByte(s, e);
        case DrainByte(u) => CopiesOneByte(s, e);
        case Expire(u) => TimerEndsWaiting(s, u);
        case ResetAll => ResetEndsWaiting(s);
        case SetPriority(_, _) =>
      }
    }
  }

  /** The same for a sender and the cells that are given back. */
  lemma SenderWaitsUntil(s: State, t: nat, e: Step)
    requires Inv(s) && t < |s.phase| && s.phase[t].WaitSend?
    ensures var r := Next(s, e);
            && t < |r.phase| && s.senders != []
            && r.phase[t] == (if Enabled(s, e) && e.GiveBack? && s.senders[0] == t then WokenSend(s.phase[t].buf)
                              else if e == Expire(t) || e == ResetAll then Idle else s.phase[t])
  {
    assert t in s.senders;
    if Enabled(s, e) {
      match e {
        case Send(u, _, _, _) => SendTakesOrWaits(s, e);
        case Resend(u, _) => SendTakesOrWaits(s, e);
        case Recv(u, _, _) => RecvTakesOrWaits(s, e);
        case Rerecv(u, _) => RecvTakesOrWaits(s, e);
        case Link(u) => LinkWakesFirst(s, u);
        case GiveBack(u) => GiveBackWakesFirst(s, u);
        case FillByte(u) => CopiesOneByte(s, e);
        case DrainByte(u) => CopiesOneByte(s, e);
        case Expire(u) => TimerEndsWaiting(s, u);
        case ResetAll => ResetEndsWaiting(s);
        case SetPriority(_, _) =>
      }
    }
  }
}
