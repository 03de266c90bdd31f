/** The event set (os/ipc.c): threads wait for all or any of some flags and may take the flags away. */
module Event {
  import opened WaitList

  /** A 32-bit word of flags, as the numbers of the bits that are set. */
  type Flags = set<nat>

  /** A waiting thread: which flags it wants, whether all of them or any, and whether it clears what it gets. */
  datatype Waiter = Waiter(t: nat, want: Flags, all: bool, clear: bool)

  /** A thread resumed with the flags it got. */
  datatype Woken = Woken(w: Waiter, got: Flags)

  datatype Scan = Scan(left: seq<Waiter>, flags: Flags, woken: seq<Woken>)

  predicate Satisfied(w: Waiter, flags: Flags)
  {
    if w.all then w.want <= flags else w.want * flags != {}
  }

  /** All flags wanted are there, or some flag is both wanted and there. */
  lemma SatisfiedMeans(w: Waiter, flags: Flags)
    ensures w.all ==> (Satisfied(w, flags) <==> forall f :: f in w.want ==> f in flags)
    ensures !w.all ==> (Satisfied(w, flags) <==> exists f :: f in w.want && f in flags)
  {
    if !w.all {
      if f :| f in w.want && f in flags {
        assert f in w.want * flags;
      }
      if Satisfied(w, flags) {
        var f :| f in w.want * flags;
        assert f in w.want && f in flags;
      }
    }
  }

  function Got(w: Waiter, flags: Flags): Flags { if w.all then w.want else w.want * flags }

  function Cleared(w: Waiter, flags: Flags): Flags { if w.clear then flags - Got(w, flags) else flags }

  /** The scan of a send: each waiter in turn is tested against what the earlier ones have left. */
  function ScanAll(ws: seq<Waiter>, flags: Flags): Scan
  {
    if ws == [] then Scan([], flags, [])
    else if Satisfied(ws[0], flags) then
      var r := ScanAll(ws[1..], Cleared(ws[0], flags));
      r.(woken := [Woken(ws[0], Got(ws[0], flags))] + r.woken)
    else
      var r := ScanAll(ws[1..], flags);
      r.(left := [ws[0]] + r.left)
  }

  /** A lone waiter gets what it wants of the flags if they satisfy it, and takes it away if it clears. */
  lemma ScanOne(w: Waiter, flags: Flags)
    ensures var r := ScanAll([w], flags);
            if Satisfied(w, flags) then
              && r.left == [] && |r.woken| == 1 && r.woken[0].w == w
              && (forall f :: f in r.woken[0].got <==> f in w.want && f in flags)
              && forall f :: f in r.flags <==> f in flags && !(w.clear && f in w.want)
            else r == Scan([w], flags, [])
  {
    var r := ScanAll([], if Satisfied(w, flags) then Cleared(w, flags) else flags);
    assert [w][1..] == [] && r.left == [] && r.woken == [];
  }

  /** The waiters are served in line: those further back from what those in front have left. */
  lemma {:induction false} ScanInOrder(a: seq<Waiter>, b: seq<Waiter>, flags: Flags)
    ensures var x := ScanAll(a, flags);
            var y := ScanAll(b, x.flags);
            ScanAll(a + b, flags) == Scan(x.left + y.left, y.flags, x.woken + y.woken)
    decreases |a|
  {
    if a == [] {
      assert a + b == b;
      var y := ScanAll(b, flags);
      assert [] + y.left == y.left && [] + y.woken == y.woken;
    } else {
      var next := if Satisfied(a[0], flags) then Cleared(a[0], flags) else flags;
      ScanInOrder(a[1..], b, next);
      assert (a + b)[1..] == a[1..] + b;
    }
  }

  lemma {:induction false} ScanShrinks(ws: seq<Waiter>, flags: Flags)
    ensures ScanAll(ws, flags).flags <= flags
  {
    if ws != [] {
      ScanShrinks(ws[1..], if Satisfied(ws[0], flags) then Cleared(ws[0], flags) else flags);
    }
  }

  /** A waiter satisfied by part of the flags is satisfied by all of them. */
  lemma SatisfiedGrows(w: Waiter, part: Flags, flags: Flags)
    requires part <= flags && Satisfied(w, part)
    ensures Satisfied(w, flags)
  {
    if !w.all {
      var f :| f in w.want * part;
      assert f in w.want * flags;
    }
  }

  /** After a send nobody who is left waiting is satisfied by the flags that remain, although flags may have
      been cleared in the middle of the scan. */
  lemma {:induction false} ScanIsComplete(ws: seq<Waiter>, flags: Flags)
    ensures forall w :: w in ScanAll(ws, flags).left ==> !Satisfied(w, ScanAll(ws, flags).flags)
  {
    if ws != [] {
      ScanIsComplete(ws[1..], if Satisfied(ws[0], flags) then Cleared(ws[0], flags) else flags);
      var r := ScanAll(ws, flags);
      if !Satisfied(ws[0], flags) {
        ScanShrinks(ws[1..], flags);
        if Satisfied(ws[0], r.flags) {
          SatisfiedGrows(ws[0], r.flags, flags);
        }
      }
    }
  }

  /** The flags taken away by the woken threads. */
  function Consumed(ks: seq<Woken>): Flags
  {
    if ks == [] then {} else (if ks[0].w.clear then ks[0].got else {}) + Consumed(ks[1..])
  }

  /** No two of them have taken the same flag. */
  predicate TakenOnce(ks: seq<Woken>)
  {
    ks == [] || ((ks[0].w.clear ==> ks[0].got !! Consumed(ks[1..])) && TakenOnce(ks[1..]))
  }

  /** Flags are conserved and taken once: those before the scan are those that remain and those consumed. */
  lemma {:induction false} ScanConserves(ws: seq<Waiter>, flags: Flags)
    ensures var r := ScanAll(ws, flags);
            flags == Consumed(r.woken) + r.flags && TakenOnce(r.woken) && Consumed(r.woken) !! r.flags
  {
    if ws != [] {
      var w, rest := ws[0], ws[1..];
      if Satisfied(w, flags) {
        ScanConserves(rest, Cleared(w, flags));
        var more := ScanAll(rest, Cleared(w, flags));
        assert ([Woken(w, Got(w, flags))] + more.woken)[1..] == more.woken;
      } else {
        ScanConserves(rest, flags);
      }
    }
  }

  /** Everybody is woken with flags it wanted or is left. */
  lemma {:induction false} ScanKeepsAll(ws: seq<Waiter>, flags: Flags, w: Waiter)
    ensures var r := ScanAll(ws, flags);
            && (w in ws <==> w in r.left || exists k :: k in r.woken && k.w == w)
            && forall k :: k in r.woken ==> k.got <= k.w.want * flags && (k.w.all ==> k.got == k.w.want)
  {
    if ws != [] {
      var next := if Satisfied(ws[0], flags) then Cleared(ws[0], flags) else flags;
      ScanKeepsAll(ws[1..], next, w);
      var r, more := ScanAll(ws, flags), ScanAll(ws[1..], next);
      if Satisfied(ws[0], flags) {
        assert Woken(ws[0], Got(ws[0], flags)) in r.woken;
        assert forall k :: k in more.woken ==> k in r.woken;
      }
      assert w in ws <==> w == ws[0] || w in ws[1..];
    }
  }

  // ---- runs ----

  /** `order` and `prio` are the event's order of waiting and the threads' priorities. */
  datatype State = State(order: Flag, prio: seq<nat>, flags: Flags, waiters: seq<Waiter>)

  datatype Step =
    | Send(flags: Flags)
    | Recv(w: Waiter, wait: bool)
    | Expire(i: nat)
    | Reset

  /** Nobody waits for what is there. */
  ghost predicate Inv(s: State)
  {
    forall w :: w in s.waiters ==> w.t < |s.prio| && !Satisfied(w, s.flags)
  }

  function Threads(ws: seq<Waiter>): (r: seq<nat>)
    ensures |r| == |ws| && forall i :: 0 <= i < |r| ==> r[i] == ws[i].t
  {
    seq(|ws|, i requires 0 <= i < |ws| => ws[i].t)
  }

  /** Where a newcomer stands in line: last, or before the first less urgent thread. */
  function PlaceOf(s: State, w: Waiter): (k: nat)
    requires Inv(s) && w.t < |s.prio|
    ensures k <= |s.waiters|
  {
    ThreadsKnown(s);
    Place(Threads(s.waiters), w.t, s.prio, s.order)
  }

  lemma ThreadsKnown(s: State)
    requires Inv(s)
    ensures Known(Threads(s.waiters), s.prio)
  {
    forall i | 0 <= i < |s.waiters|
      ensures Threads(s.waiters)[i] < |s.prio|
    {
      assert s.waiters[i] in s.waiters;
    }
  }

  function Joined(s: State, w: Waiter): seq<Waiter>
    requires Inv(s) && w.t < |s.prio|
  {
    s.waiters[..PlaceOf(s, w)] + [w] + s.waiters[PlaceOf(s, w)..]
  }

  lemma JoinedInLine(s: State, w: Waiter)
    requires Inv(s) && w.t < |s.prio|
    ensures Known(Threads(s.waiters), s.prio)
    ensures InLine(Threads(s.waiters), w.t, s.prio, s.order, Threads(Joined(s, w)))
    ensures w in Joined(s, w) && forall v :: v in Joined(s, w) ==> v == w || v in s.waiters
  {
    ThreadsKnown(s);
    var was, k := Threads(s.waiters), PlaceOf(s, w);
    JoinsInLine(was, w.t, s.prio, s.order);
    assert Threads(Joined(s, w)) == Insert(was, w.t, s.prio, s.order);
    assert Joined(s, w)[k] == w;
  }

  function Next(s: State, e: Step): State
    requires Inv(s)
  {
    match e
    case Send(extra) =>
      if extra == {} then s
      else var r := ScanAll(s.waiters, s.flags + extra); s.(flags := r.flags, waiters := r.left)
    case Recv(w, wait) =>
      if w.want == {} then s
      else if Satisfied(w, s.flags) then s.(flags := if w.clear then s.flags - w.want else s.flags)
      else if wait && w.t < |s.prio| then s.(waiters := Joined(s, w))
      else s
    case Expire(i) => if i < |s.waiters| then s.(waiters := s.waiters[..i] + s.waiters[i + 1..]) else s
    case Reset => s.(flags := {}, waiters := [])
  }

  lemma NextKeepsInv(s: State, e: Step)
    requires Inv(s)
    ensures Inv(Next(s, e))
  {
    match e {
      case Send(extra) =>
        if extra != {} {
          ScanIsComplete(s.waiters, s.flags + extra);
          forall w | w in Next(s, e).waiters
            ensures w in s.waiters
          {
            ScanKeepsAll(s.waiters, s.flags + extra, w);
          }
        }
      case Recv(w, wait) =>
        if w.want != {} && Satisfied(w, s.flags) && w.clear {
          var now := s.flags - w.want;
          forall o | o in s.waiters
            ensures !Satisfied(o, now)
          {
            if Satisfied(o, now) {
              SatisfiedGrows(o, now, s.flags);
            }
          }
        }
      case Expire(i) =>
      case Reset =>
    }
  }

  /** A send of no flags is refused; any other adds its flags and scans the waiters in line. */
  lemma SendScans(s: State, extra: Flags)
    requires Inv(s)
    ensures var r, scan := Next(s, Send(extra)), ScanAll(s.waiters, s.flags + extra);
            r == if forall f :: f !in extra then s else s.(flags := scan.flags, waiters := scan.left)
  {
    if f :| f in extra {
      assert extra != {};
    } else {
      assert extra == {};
    }
  }

  /** A receive of no flags is refused. Flags that are there are received, and cleared if asked; otherwise the
      caller waits in its place in line, or nothing is done when it has no time to wait. */
  lemma RecvTakesOrWaits(s: State, w: Waiter, wait: bool)
    requires Inv(s) && w.t < |s.prio|
    ensures Known(Threads(s.waiters), s.prio)
    ensures var r := Next(s, Recv(w, wait));
            var there := if w.all then forall f :: f in w.want ==> f in s.flags
                         else exists f :: f in w.want && f in s.flags;
            if w.want == {} then r == s
            else if there then
              r == s.(flags := r.flags) && forall f :: f in r.flags <==> f in s.flags && !(w.clear && f in w.want)
            else if wait then
              && r == s.(waiters := r.waiters) && w in r.waiters && (forall v :: v in r.waiters ==> v == w || v in s.waiters)
              && InLine(Threads(s.waiters), w.t, s.prio, s.order, Threads(r.waiters))
            else r == s
  {
    SatisfiedMeans(w, s.flags);
    JoinedInLine(s, w);
  }

  /** A timeout takes the one waiter out of line, a reset clears the flags and sends everybody away. */
  lemma WaitingEnds(s: State, e: Step)
    requires Inv(s) && (e.Expire? || e.Reset?)
    ensures var r := Next(s, e);
            && r.order == s.order && r.prio == s.prio
            && (e.Expire? ==>
                 && r.flags == s.flags
                 && if e.i < |s.waiters| then s.waiters == r.waiters[..e.i] + [s.waiters[e.i]] + r.waiters[e.i..]
                    else r.waiters == s.waiters)
            && (e.Reset? ==> r.flags == {} && r.waiters == [])
  {
    if e.Expire? && e.i < |s.waiters| {
      var r := Next(s, e).waiters;
      assert r[..e.i] == s.waiters[..e.i] && r[e.i..] == s.waiters[e.i + 1..];
    }
  }

  function Run(s: State, steps: seq<Step>): (r: State)
    requires Inv(s)
    ensures Inv(r)
    decreases |steps|
  {
    if steps == [] then s
    else
      NextKeepsInv(s, steps[0]);
      Run(Next(s, steps[0]), steps[1..])
  }

  /** A run is its steps one after the other. */
  lemma {:induction false} RunExtends(s: State, steps: seq<Step>, e: Step)
    requires Inv(s)
    ensures Run(s, []) == s && Run(s, steps + [e]) == Next(Run(s, steps), e)
    decreases |steps|
  {
    if steps == [] {
      assert ([] + [e])[1..] == [];
    } else {
      NextKeepsInv(s, steps[0]);
      RunExtends(Next(s, steps[0]), steps[1..], e);
      assert (steps + [e])[1..] == steps[1..] + [e];
    }
  }

  /** In every reachable state no waiter is satisfied by the current flags. */
  lemma NobodyForgotten(s: State, steps: seq<Step>)
    requires Inv(s)
    ensures forall w :: w in Run(s, steps).waiters ==> !Satisfied(w, Run(s, steps).flags)
  {
    assert Inv(Run(s, steps));
  }

  /** What a scan leaves, in terms of flags alone. */
  lemma SendFacts(ws: seq<Waiter>, flags: Flags, r: Scan)
    requires r == ScanAll(ws, flags)
    ensures forall w :: w in r.left ==>
              w in ws
              && if w.all then exists f :: f in w.want && f !in r.flags else forall f :: f in w.want ==> f !in r.flags
    ensures forall w :: w in ws ==> w in r.left || exists k :: k in r.woken && k.w == w
    ensures forall k :: k in r.woken ==>
              k.got <= k.w.want * flags && if k.w.all then k.got == k.w.want else exists f :: f in k.got
    ensures r.flags + Consumed(r.woken) == flags && Consumed(r.woken) !! r.flags
  {
    ScanIsComplete(ws, flags);
    ScanConserves(ws, flags);
    GotSomething(ws, flags);
    forall w | w in r.left
      ensures w in ws
      ensures if w.all then exists f :: f in w.want && f !in r.flags else forall f :: f in w.want ==> f !in r.flags
    {
      ScanKeepsAll(ws, flags, w);
      SatisfiedMeans(w, r.flags);
    }
    forall w | w in ws
      ensures w in r.left || exists k :: k in r.woken && k.w == w
    {
      ScanKeepsAll(ws, flags, w);
    }
    forall k | k in r.woken
      ensures k.got <= k.w.want * flags && if k.w.all then k.got == k.w.want else exists f :: f in k.got
    {
      ScanKeepsAll(ws, flags, k.w);
    }
  }

  /** Nobody is woken by none of the flags it wanted any of. */
  lemma {:induction false} GotSomething(ws: seq<Waiter>, flags: Flags)
    ensures forall k :: k in ScanAll(ws, flags).woken && !k.w.all ==> exists f :: f in k.got
  {
    if ws != [] {
      var w := ws[0];
      GotSomething(ws[1..], if Satisfied(w, flags) then Cleared(w, flags) else flags);
      SatisfiedMeans(w, flags);
      if Satisfied(w, flags) && !w.all {
        var f :| f in w.want && f in flags;
        assert f in Got(w, flags);
      }
    }
  }

  // ---- the event in place ----

  /** How a receive ends, or that the caller has to wait. */
  datatype Outcome = Error | Received(flags: Flags) | Timeout | Blocked

  class Object {
    const order: Flag
    const prio: seq<nat>
    var flags: Flags
    var waiters: seq<Waiter>

    function Snapshot(): State
      reads this
    {
      State(order, prio, flags, waiters)
    }

    constructor (order: Flag, prio: seq<nat>)
      ensures Inv(Snapshot()) && flags == {} && waiters == [] && this.order == order && this.prio == prio
    {
      this.order, this.prio := order, prio;
      flags, waiters := {}, [];
    }

    /** Sets flags and wakes, in one pass, everybody they satisfy. */
    method Send(extra: Flags) returns (ok: bool, woken: seq<Woken>)
      requires Inv(Snapshot())
      modifies this
      ensures Inv(Snapshot()) && Snapshot() == Next(old(Snapshot()), Step.Send(extra)) && ok == (extra != {})
      ensures woken == if ok then ScanAll(old(waiters), old(flags) + extra).woken else []
      ensures ok ==> forall w :: w in waiters ==>
                w in old(waiters)
                && if w.all then exists f :: f in w.want && f !in flags else forall f :: f in w.want ==> f !in flags
      ensures ok ==> forall w :: w in old(waiters) ==> w in waiters || exists k :: k in woken && k.w == w
      ensures ok ==> forall k :: k in woken ==>
                && k.got <= k.w.want * (old(flags) + extra)
                && if k.w.all then k.got == k.w.want else exists f :: f in k.got
      ensures flags + Consumed(woken) == old(flags) + extra && Consumed(woken) !! flags
    {
      ghost var was, all0 := waiters, flags + extra;
      NextKeepsInv(Snapshot(), Step.Send(extra));
      woken := [];
      if extra == {} {
        assert flags + {} == flags;
        return false, [];
      }
      flags := flags + extra;
      ghost var all := ScanAll(waiters, flags);
      var left: seq<Waiter> := [];
      var n := 0;
      while n < |waiters|
        invariant n <= |waiters| && waiters == old(waiters)
        invariant var r := ScanAll(waiters[n..], flags);
                  left + r.left == all.left && r.flags == all.flags && woken + r.woken == all.woken
      {
        var w := waiters[n];
        assert waiters[n..][1..] == waiters[n + 1..];
        n := n + 1;
        if Satisfied(w, flags) {
          woken := woken + [Woken(w, Got(w, flags))];
          flags := Cleared(w, flags);
        } else {
          left := left + [w];
        }
      }
      waiters := left;
      ok := true;
      SendFacts(was, all0, all);
    }

    /** Takes the flags if they are there; otherwise the caller joins the waiters, in its place, unless it does
        not want to wait. */
    method Recv(w: Waiter, time: int) returns (r: Outcome)
      requires Inv(Snapshot()) && w.t < |prio|
      modifies this
      ensures Inv(Snapshot()) && Snapshot() == Next(old(Snapshot()), Step.Recv(w, time != 0))
      ensures r == if w.want == {} then Error
                   else if (if w.all then forall f :: f in w.want ==> f in old(flags)
                            else exists f :: f in w.want && f in old(flags))
                   then Received(old(flags) * w.want)
                   else if time == 0 then Timeout else Blocked
      ensures flags == if r.Received? && w.clear then old(flags) - w.want else old(flags)
      ensures if r == Blocked then
                Known(Threads(old(waiters)), prio) && InLine(Threads(old(waiters)), w.t, prio, order, Threads(waiters))
                && w in waiters && forall v :: v in waiters ==> v == w || v in old(waiters)
              else waiters == old(waiters)
    {
      SatisfiedMeans(w, flags);
      NextKeepsInv(Snapshot(), Step.Recv(w, time != 0));
      if w.want == {} {
        return Error;
      }
      var ok := if w.all then flags * w.want == w.want else flags * w.want != {};
      assert ok == Satisfied(w, flags) by {
        assert w.want <= flags <==> flags * w.want == w.want;
        assert flags * w.want == w.want * flags;
      }
      if ok {
        r := Received(flags * w.want);
        if w.clear {
          flags := flags - w.want;
        }
        return r;
      }
      if time == 0 {
        return Timeout;
      }
      ThreadsKnown(Snapshot());
      JoinedInLine(Snapshot(), w);
      var at := |waiters|;
      if order == Prio {
        at := FindSlot(Threads(waiters), prio, prio[w.t]);
      }
      waiters := waiters[..at] + [w] + waiters[at..];
      return Blocked;
    }
  }
}
