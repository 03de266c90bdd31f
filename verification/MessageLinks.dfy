/** The message queue's links under every interleaving (os/ipc.c): the protocol of any number of threads together
    with head, tail, free list, counter and link words, updated as the critical sections update them. What the
    sections decide, they decide by the header. */
module MessageLinks {
  import opened Links
  import opened WaitList
  import opened MessageQueue
  import P = MessageProtocol

  /** `cleared` says which ordinary senders have cleared their cell's link word, outside the sections. */
  datatype State = State(p: P.State, h: Header, cleared: seq<bool>)

  /** A step of the protocol, or the one link store between the sections of a send. */
  datatype Step = Clear(t: nat) | Do(e: P.Step)

  /** Ordinary senders clear the link word before they copy. */
  predicate MayCopy(s: State, t: nat)
  {
    t < |s.p.phase| == |s.cleared| && (s.p.phase[t].Filling? ==> s.p.phase[t].urgent || s.cleared[t])
  }

  predicate Enabled(s: State, e: Step)
  {
    match e
    case Clear(t) => t < |s.p.phase| == |s.cleared| && s.p.phase[t].Filling? && !s.p.phase[t].urgent && !s.cleared[t]
    case Do(f) => P.Enabled(s.p, f) && (f.FillByte? || f.Link? ==> MayCopy(s, f.t))
  }

  ghost predicate Chains(s: State)
  {
    Agrees(s.h, s.p.queue, s.p.spare) && |s.h.next| == |s.p.cells| && |s.cleared| == |s.p.phase|
  }

  /** The link word of a cell that is being filled ends the list. */
  ghost predicate EndsIn(s: State, t: nat)
    requires t < |s.p.phase| == |s.cleared|
  {
    s.p.phase[t].Filling? && !s.p.phase[t].urgent && s.cleared[t] ==>
      s.h.Known(s.p.phase[t].cell) && s.h.next[s.p.phase[t].cell] == NIL
  }

  ghost predicate Inv(s: State)
  {
    P.Inv(s.p) && Chains(s) && forall t :: 0 <= t < |s.p.phase| ==> EndsIn(s, t)
  }

  /** What a section does to the header, by what it finds there. */
  function HeaderAfter(s: State, e: P.Step): Header
    requires s.h.InBounds() && P.Enabled(s.p, e)
    requires (e.Link? || e.GiveBack?) ==> s.h.Known(s.p.phase[e.t].cell)
  {
    match e
    case Send(_, _, _, _) => s.h.TakeFree()
    case Resend(_, _) => s.h.TakeFree()
    case Link(t) => if s.p.phase[t].urgent then s.h.LinkFirst(s.p.phase[t].cell) else s.h.LinkLast(s.p.phase[t].cell)
    case Recv(_, _, _) => if s.h.entry == 0 || s.h.head == NIL then s.h else s.h.Unlink()
    case Rerecv(_, _) => if s.h.entry == 0 || s.h.head == NIL then s.h else s.h.Unlink()
    case GiveBack(t) => s.h.GiveBack(s.p.phase[t].cell)
    case ResetAll => s.h.Reset()
    case _ => s.h
  }

  predicate TakesCell(e: P.Step) { e.Send? || e.Resend? }

  function Next(s: State, e: Step): State
    requires Inv(s)
  {
    if !Enabled(s, e) then s
    else
      match e
      case Clear(t) => CellKnown(s, t); s.(h := s.h.Clear(s.p.phase[t].cell), cleared := s.cleared[t := true])
      case Do(f) =>
        HeldKnown(s, f);
        State(P.Next(s.p, f), HeaderAfter(s, f), if TakesCell(f) then s.cleared[f.t := false] else s.cleared)
  }

  /** A held cell is on no list. */
  lemma CellKnown(s: State, t: nat)
    requires P.CellsOwned(s.p) && Chains(s) && t < |s.p.phase| && (s.p.phase[t].Filling? || s.p.phase[t].Draining?)
    ensures Aside(s.h, s.p.queue, s.p.spare, s.p.phase[t].cell)
  {
    var c := s.p.phase[t].cell;
    assert P.Holds(s.p.phase[t], c);
    assert c in s.p.queue ==> c in Elems(s.p.queue);
    assert c in s.p.spare ==> c in Elems(s.p.spare);
  }

  lemma HeldKnown(s: State, e: P.Step)
    requires P.CellsOwned(s.p) && Chains(s) && P.Enabled(s.p, e)
    ensures (e.Link? || e.GiveBack?) ==> Aside(s.h, s.p.queue, s.p.spare, s.p.phase[e.t].cell)
  {
    if e.Link? || e.GiveBack? {
      CellKnown(s, e.t);
    }
  }

  /** A section finds a free cell, or a message, exactly when the protocol says so, and it is the same cell. */
  lemma DecidesAlike(s: State)
    requires Inv(s)
    ensures s.h.free == NIL <==> s.p.spare == []
    ensures s.p.spare != [] ==> s.h.free == s.p.spare[0]
    ensures s.h.entry == 0 <==> s.p.queue == []
    ensures s.p.queue != [] ==> s.h.head == s.p.queue[0] && s.h.head != NIL
  {
    HeaderTells(s.h, s.p.queue, s.p.spare);
  }

  // ---- every step keeps the links ----

  lemma TakeCellChains(s: State, e: P.Step)
    requires Inv(s) && P.Enabled(s.p, e) && TakesCell(e)
    ensures var r := P.Next(s.p, e); Agrees(HeaderAfter(s, e), r.queue, r.spare) && |r.cells| == |s.p.cells|
  {
    TakeFreeAgrees(s.h, s.p.queue, s.p.spare);
  }

  lemma LinkChains(s: State, t: nat)
    requires Inv(s) && P.Enabled(s.p, P.Link(t)) && MayCopy(s, t)
    ensures s.h.Known(s.p.phase[t].cell)
    ensures var r := P.Next(s.p, P.Link(t));
            Agrees(HeaderAfter(s, P.Link(t)), r.queue, r.spare) && |r.cells| == |s.p.cells|
  {
    CellKnown(s, t);
    var c := s.p.phase[t].cell;
    if s.p.phase[t].urgent {
      LinkFirstAgrees(s.h, s.p.queue, s.p.spare, c);
    } else {
      assert EndsIn(s, t);
      LinkLastAgrees(s.h, s.p.queue, s.p.spare, c);
    }
  }

  lemma TakeMsgChains(s: State, e: P.Step)
    requires Inv(s) && P.Enabled(s.p, e) && (e.Recv? || e.Rerecv?)
    ensures var r := P.Next(s.p, e); Agrees(HeaderAfter(s, e), r.queue, r.spare) && |r.cells| == |s.p.cells|
  {
    DecidesAlike(s);
    if s.p.queue != [] {
      UnlinkAgrees(s.h, s.p.queue, s.p.spare);
    }
  }

  lemma GiveBackChains(s: State, t: nat)
    requires Inv(s) && P.Enabled(s.p, P.GiveBack(t))
    ensures s.h.Known(s.p.phase[t].cell)
    ensures var r := P.Next(s.p, P.GiveBack(t));
            Agrees(HeaderAfter(s, P.GiveBack(t)), r.queue, r.spare) && |r.cells| == |s.p.cells|
  {
    CellKnown(s, t);
    GiveBackAgrees(s.h, s.p.queue, s.p.spare, s.p.phase[t].cell);
  }

  lemma NextChains(s: State, e: P.Step)
    requires Inv(s) && Enabled(s, Do(e))
    ensures Chains(Next(s, Do(e)))
  {
    HeldKnown(s, e);
    FillingStays(s.p, e, 0);
    match e {
      case Send(_, _, _, _) => TakeCellChains(s, e);
      case Resend(_, _) => TakeCellChains(s, e);
      case Link(t) => LinkChains(s, t);
      case Recv(_, _, _) => TakeMsgChains(s, e);
      case Rerecv(_, _) => TakeMsgChains(s, e);
      case GiveBack(t) => GiveBackChains(s, t);
      case ResetAll => ResetAgrees(s.h, s.p.queue, s.p.spare);
      case _ =>
    }
  }

  /** Whoever fills a cell in `now` was filling the same one in `was`. */
  ghost predicate NoNewFilling(was: seq<P.Phase>, now: seq<P.Phase>, u: nat)
  {
    && |now| == |was|
    && (u < |now| && now[u].Filling? ==>
          was[u].Filling? && now[u].cell == was[u].cell && now[u].urgent == was[u].urgent)
  }

  lemma WakeFillsNot(p: P.State, u: nat)
    requires AllWait(p.receivers, p.phase, P.Receiving) || AllWait(p.senders, p.phase, P.Sending)
    ensures AllWait(p.receivers, p.phase, P.Receiving) ==> NoNewFilling(p.phase, P.WakeReceiver(p).phase, u)
    ensures AllWait(p.senders, p.phase, P.Sending) ==> NoNewFilling(p.phase, P.WakeSender(p).phase, u)
  {
  }

  lemma LinkPhases(p: P.State, t: nat, u: nat)
    requires P.Inv(p) && P.Enabled(p, P.Link(t))
    ensures var r := P.Next(p, P.Link(t));
            NoNewFilling(p.phase, r.phase, u) && (t < |r.phase| ==> !r.phase[t].Filling?)
  {
    assert AllWait(p.receivers, p.phase[t := P.Idle], P.Receiving);
    WakeFillsNot(P.Linked(p, t), u);
    WakeFillsNot(P.Linked(p, t), t);
  }

  lemma FreePhases(p: P.State, t: nat, u: nat)
    requires P.Inv(p) && P.Enabled(p, P.GiveBack(t))
    ensures NoNewFilling(p.phase, P.Next(p, P.GiveBack(t)).phase, u)
  {
    assert AllWait(p.senders, p.phase[t := P.Idle], P.Sending);
    WakeFillsNot(P.Freed(p, t), u);
  }

  /** Only the section that takes a cell makes a thread fill one. */
  lemma FillingStays(p: P.State, e: P.Step, u: nat)
    requires P.Inv(p) && P.Enabled(p, e)
    ensures var r := P.Next(p, e);
            && |r.phase| == |p.phase|
            && (!(TakesCell(e) && e.t == u) ==> NoNewFilling(p.phase, r.phase, u))
            && (e.Link? && u < |r.phase| && e.t == u ==> !r.phase[u].Filling?)
  {
    match e {
      case Link(t) => LinkPhases(p, t, u);
      case GiveBack(t) => FreePhases(p, t, u);
      case _ =>
    }
  }

  /** The cell whose link word a section writes although it is on no list. */
  function Written(s: State, e: P.Step): int
    requires P.Enabled(s.p, e)
  {
    if e.Link? || e.GiveBack? then s.p.phase[e.t].cell else NIL
  }

  lemma HeaderKept(s: State, e: P.Step)
    requires Inv(s) && Enabled(s, Do(e))
    ensures (e.Link? || e.GiveBack?) ==> s.h.Known(s.p.phase[e.t].cell)
    ensures Kept(s.h, HeaderAfter(s, e), s.p.queue, Written(s, e))
  {
    HeldKnown(s, e);
    match e {
      case Link(t) =>
        if s.p.phase[t].urgent {
          LinkFirstAgrees(s.h, s.p.queue, s.p.spare, s.p.phase[t].cell);
        } else {
          assert EndsIn(s, t);
          LinkLastAgrees(s.h, s.p.queue, s.p.spare, s.p.phase[t].cell);
        }
      case GiveBack(t) => GiveBackAgrees(s.h, s.p.queue, s.p.spare, s.p.phase[t].cell);
      case ResetAll => ResetAgrees(s.h, s.p.queue, s.p.spare);
      case _ =>
    }
  }

  /** Two threads never hold one cell. */
  lemma CellsDiffer(s: State, t: nat, u: nat)
    requires P.CellsOwned(s.p) && t < |s.p.phase| && u < |s.p.phase| && t != u
    requires (s.p.phase[t].Filling? || s.p.phase[t].Draining?) && (s.p.phase[u].Filling? || s.p.phase[u].Draining?)
    ensures s.p.phase[t].cell != s.p.phase[u].cell
  {
    assert P.Holds(s.p.phase[t], s.p.phase[t].cell) && P.Holds(s.p.phase[u], s.p.phase[u].cell);
  }

  lemma NextEnds(s: State, e: P.Step, u: nat)
    requires Inv(s) && Enabled(s, Do(e)) && u < |s.p.phase| == |P.Next(s.p, e).phase|
    ensures |Next(s, Do(e)).cleared| == |s.p.phase| && EndsIn(Next(s, Do(e)), u)
  {
    FillingStays(s.p, e, u);
    HeaderKept(s, e);
    var r := Next(s, Do(e));
    if r.p.phase[u].Filling? && !r.p.phase[u].urgent && r.cleared[u] {
      assert EndsIn(s, u);
      CellKnown(s, u);
      if e.Link? || e.GiveBack? {
        CellsDiffer(s, e.t, u);
      }
    }
  }

  lemma ClearKeepsInv(s: State, t: nat)
    requires Inv(s) && Enabled(s, Clear(t))
    ensures Inv(Next(s, Clear(t)))
  {
    CellKnown(s, t);
    var c, r := s.p.phase[t].cell, Next(s, Clear(t));
    ClearAgrees(s.h, s.p.queue, s.p.spare, c);
    forall u | 0 <= u < |r.p.phase|
      ensures EndsIn(r, u)
    {
      assert EndsIn(s, u);
      if u != t && r.p.phase[u].Filling? {
        CellsDiffer(s, t, u);
      }
    }
  }

  lemma NextKeepsInv(s: State, e: Step)
    requires Inv(s)
    ensures Inv(Next(s, e))
  {
    if Enabled(s, e) {
      match e {
        case Clear(t) => ClearKeepsInv(s, t);
        case Do(f) =>
          P.NextKeepsInv(s.p, f);
          NextChains(s, f);
          var r := Next(s, e);
          FillingStays(s.p, f, 0);
          forall u | 0 <= u < |r.p.phase|
            ensures EndsIn(r, u)
          {
            NextEnds(s, f, u);
          }
      }
    }
  }

  // ---- runs ----

  function Run(s: State, steps: seq<Step>): (r: State)
    requires Inv(s)
    ensures Inv(r)
    decreases |steps|
  {
    if steps == [] then s
    else
      NextKeepsInv(s, steps[0]);
      Run(Next(s, steps[0]), steps[1..])
  }

  /** As the initialisation leaves it: all cells chained on the free list, the last one first. */
  ghost predicate Initial(s: State)
  {
    && P.Initial(s.p) && Agrees(s.h, [], s.p.spare) && |s.h.next| == |s.p.cells|
    && s.cleared == seq(|s.p.phase|, _ => false)
  }

  lemma InitialInv(s: State)
    requires Initial(s)
    ensures Inv(s)
  {
    P.InitialInv(s.p);
  }

  /** The steps of the protocol among those of a run. */
  function Projected(s: State, steps: seq<Step>): seq<P.Step>
    requires Inv(s)
    decreases |steps|
  {
    if steps == [] then []
    else
      NextKeepsInv(s, steps[0]);
      (if steps[0].Do? && Enabled(s, steps[0]) then [steps[0].e] else []) + Projected(Next(s, steps[0]), steps[1..])
  }

  /** With the links carried along, a run is still a run of the protocol, so all that holds of those holds here. */
  lemma {:induction false} RunProjects(s: State, steps: seq<Step>)
    requires Inv(s)
    ensures Run(s, steps).p == P.Run(s.p, Projected(s, steps))
    decreases |steps|
  {
    if steps != [] {
      NextKeepsInv(s, steps[0]);
      var m, rest := Next(s, steps[0]), Projected(Next(s, steps[0]), steps[1..]);
      RunProjects(m, steps[1..]);
      if steps[0].Do? && Enabled(s, steps[0]) {
        assert ([steps[0].e] + rest)[0] == steps[0].e && ([steps[0].e] + rest)[1..] == rest;
      } else {
        assert [] + rest == rest;
      }
    }
  }

  /** A step of the protocol with the link store before it that an ordinary sender's first copy needs. */
  function WithClear(s: State, e: P.Step): seq<Step>
    requires Inv(s)
  {
    if P.Enabled(s.p, e) && (e.FillByte? || e.Link?) && !MayCopy(s, e.t) then [Clear(e.t), Do(e)] else [Do(e)]
  }

  lemma RunDo(s: State, e: P.Step)
    requires Inv(s) && (P.Enabled(s.p, e) && (e.FillByte? || e.Link?) ==> MayCopy(s, e.t))
    ensures Run(s, [Do(e)]).p == P.Next(s.p, e)
  {
    NextKeepsInv(s, Do(e));
    assert [Do(e)][1..] == [];
    assert Run(Next(s, Do(e)), []) == Next(s, Do(e));
  }

  lemma RunWithClear(s: State, e: P.Step)
    requires Inv(s)
    ensures Run(s, WithClear(s, e)).p == P.Next(s.p, e)
  {
    if P.Enabled(s.p, e) && (e.FillByte? || e.Link?) && !MayCopy(s, e.t) {
      var m := Next(s, Clear(e.t));
      NextKeepsInv(s, Clear(e.t));
      RunDo(m, e);
      assert [Clear(e.t), Do(e)][1..] == [Do(e)];
    } else {
      RunDo(s, e);
    }
  }

  lemma RunFirst(s: State, e: Step, rest: seq<Step>)
    requires Inv(s)
    ensures Inv(Next(s, e)) && Run(s, [e] + rest) == Run(Next(s, e), rest)
  {
    NextKeepsInv(s, e);
    assert ([e] + rest)[1..] == rest;
  }

  lemma {:induction false} RunAppend(s: State, a: seq<Step>, b: seq<Step>)
    requires Inv(s)
    ensures Run(s, a + b) == Run(Run(s, a), b)
    decreases |a|
  {
    if a == [] {
      assert a + b == b;
    } else {
      var e, more := a[0], a[1..];
      RunFirst(s, e, more + b);
      RunFirst(s, e, more);
      RunAppend(Next(s, e), more, b);
      FirstApart(a, b);
    }
  }

  lemma FirstApart(a: seq<Step>, b: seq<Step>)
    requires a != []
    ensures a + b == [a[0]] + (a[1..] + b) && a == [a[0]] + a[1..]
  {
  }

  /** Nothing of the protocol is lost: every run of it is what some run with links goes through. */
  lemma {:induction false} EveryRunHasLinks(s: State, steps: seq<P.Step>) returns (with: seq<Step>)
    requires Inv(s)
    ensures Run(s, with).p == P.Run(s.p, steps)
    decreases |steps|
  {
    with := [];
    if steps != [] {
      var first := WithClear(s, steps[0]);
      RunWithClear(s, steps[0]);
      var m := Run(s, first);
      var rest := EveryRunHasLinks(m, steps[1..]);
      RunAppend(s, first, rest);
      with := first + rest;
    }
  }

  /** In every reachable state the counter is the length of the queue; following the links from the head visits
      exactly the queued cells in their order, and from the free list's head the free ones; the tail is the last
      queued cell exactly when there is a head; and the cell of an ordinary sender that has begun to copy still
      ends the list, whatever the others have done. */
  lemma LinksAlwaysRight(s: State, steps: seq<Step>)
    requires Initial(s)
    ensures Inv(s)
    ensures var r := Run(s, steps);
            && r.h.entry == |r.p.queue| && (r.h.head == NIL <==> r.p.queue == [])
            && Chained(r.h.next, r.h.head, r.p.queue) && Chained(r.h.next, r.h.free, r.p.spare)
            && r.h.tail == (if r.h.head == NIL then NIL else r.p.queue[|r.p.queue| - 1])
            && forall t :: 0 <= t < |r.p.phase| == |r.cleared| ==> EndsIn(r, t)
  {
    InitialInv(s);
    var r := Run(s, steps);
    HeaderTells(r.h, r.p.queue, r.p.spare);
  }
}
