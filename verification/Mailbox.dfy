/** The mailbox (os/ipc.c): a ring of words with senders and receivers that wait. First the ring in place,
    then the protocol of any number of threads, one critical section a step. */
module Mailbox {
  import opened WaitList

  const ENTRY_MAX := 65535

  function Wrap(size: nat, off: nat): nat { if off >= size then off - size else off }

  /** The mails between the two offsets, oldest first. */
  function Mails(pool: seq<int>, out: nat, entry: nat): (m: seq<int>)
    requires entry <= |pool| && (out < |pool| || entry == 0)
    ensures |m| == entry
    ensures forall k :: 0 <= k < entry ==> m[k] == pool[Wrap(|pool|, out + k)]
  {
    seq(entry, k requires 0 <= k < entry => pool[Wrap(|pool|, out + k)])
  }

  predicate RingOk(size: nat, inOff: nat, out: nat, entry: nat)
  {
    && size <= ENTRY_MAX && entry <= size
    && (size == 0 ==> inOff == out == 0) && (0 < size ==> inOff < size && out < size && inOff == Wrap(size, out + entry))
  }

  /** Storing at the input offset appends a mail, fetching at the output offset takes the oldest. */
  lemma StoreAppends(pool: seq<int>, inOff: nat, out: nat, entry: nat, value: int)
    requires RingOk(|pool|, inOff, out, entry) && entry < |pool|
    ensures RingOk(|pool|, Wrap(|pool|, inOff + 1), out, entry + 1)
    ensures Mails(pool[inOff := value], out, entry + 1) == Mails(pool, out, entry) + [value]
  {
    var now := Mails(pool[inOff := value], out, entry + 1);
    forall k | 0 <= k < entry
      ensures now[k] == Mails(pool, out, entry)[k]
    {
      assert Wrap(|pool|, out + k) != inOff;
    }
  }

  lemma FetchTakes(pool: seq<int>, inOff: nat, out: nat, entry: nat)
    requires RingOk(|pool|, inOff, out, entry) && 0 < entry
    ensures RingOk(|pool|, inOff, Wrap(|pool|, out + 1), entry - 1)
    ensures Mails(pool, out, entry) == [pool[out]] + Mails(pool, Wrap(|pool|, out + 1), entry - 1)
  {
    var was, now := Mails(pool, out, entry), Mails(pool, Wrap(|pool|, out + 1), entry - 1);
    forall k | 0 <= k < entry - 1
      ensures was[k + 1] == now[k]
    {
      assert Wrap(|pool|, Wrap(|pool|, out + 1) + k) == Wrap(|pool|, out + (k + 1));
    }
  }

  // ---- the ring in place ----

  class Box {
    const pool: array<int>
    var entry: nat
    var inOffset: nat
    var outOffset: nat

    ghost predicate Valid()
      reads this
    {
      RingOk(pool.Length, inOffset, outOffset, entry)
    }

    ghost function Contents(): seq<int>
      requires Valid()
      reads this, pool
    {
      Mails(pool[..], outOffset, entry)
    }

    constructor (size: nat)
      requires size <= ENTRY_MAX
      ensures Valid() && fresh(pool) && pool.Length == size && Contents() == []
    {
      pool := new int[size];
      entry, inOffset, outOffset := 0, 0, 0;
    }

    /** Puts a mail in, or reports that the box is full and changes nothing. */
    method Store(value: int) returns (ok: bool)
      requires Valid()
      modifies this, pool
      ensures Valid() && ok == (|old(Contents())| < pool.Length)
      ensures Contents() == if ok then old(Contents()) + [value] else old(Contents())
    {
      if entry == pool.Length {
        return false;
      }
      ghost var was := pool[..];
      StoreAppends(was, inOffset, outOffset, entry, value);
      pool[inOffset] := value;
      assert pool[..] == was[inOffset := value];
      inOffset := inOffset + 1;
      if inOffset >= pool.Length {
        inOffset := 0;
      }
      if entry < ENTRY_MAX {
        entry := entry + 1;
      } else {
        return false;
      }
      return true;
    }

    /** Takes the oldest mail out, or reports that there is none. */
    method Fetch() returns (ok: bool, value: int)
      requires Valid()
      modifies this
      ensures Valid() && ok == (old(Contents()) != [])
      ensures if ok then old(Contents()) == [value] + Contents() else Contents() == []
    {
      if entry == 0 {
        return false, 0;
      }
      FetchTakes(pool[..], inOffset, outOffset, entry);
      value := pool[outOffset];
      outOffset := outOffset + 1;
      if outOffset >= pool.Length {
        outOffset := 0;
      }
      entry := entry - 1;
      ok := true;
    }

    method Reset()
      requires Valid()
      modifies this
      ensures Valid() && Contents() == []
    {
      entry, inOffset, outOffset := 0, 0, 0;
    }
  }

  // ---- the protocol ----

  /** A woken thread has been taken off a wait list with a good error code and has not run yet. */
  datatype Phase = Idle | WaitSend(value: int) | WokenSend(value: int) | WaitRecv | WokenRecv

  datatype State = State(
    flag: Flag, prio: seq<nat>, phase: seq<Phase>, pool: seq<int>, inOff: nat, out: nat, entry: nat,
    receivers: seq<nat>, senders: seq<nat>)

  datatype Step =
    | Send(t: nat, value: int, block: bool)
    | Resend(t: nat, block: bool)
    | Recv(t: nat, block: bool)
    | Rerecv(t: nat, block: bool)
    | Expire(t: nat)
    | ResetAll
    | SetPriority(t: nat, p: nat)

  predicate Receiving(p: Phase) { p.WaitRecv? }

  predicate Sending(p: Phase) { p.WaitSend? }

  function IsWokenRecv(): Phase -> bool { (p: Phase) => p.WokenRecv? }

  function IsWokenSend(): Phase -> bool { (p: Phase) => p.WokenSend? }

  ghost predicate ListsAgree(s: State)
  {
    && |s.prio| == |s.phase|
    && Lists(s.receivers, s.phase, Receiving) && Lists(s.senders, s.phase, Sending)
  }

  /** While somebody waits, there are as many already woken as there are mails, or free places. */
  ghost predicate NoneForgotten(s: State)
  {
    && s.entry <= |s.pool|
    && (s.receivers != [] ==> Count(s.phase, IsWokenRecv()) >= s.entry)
    && (s.senders != [] ==> Count(s.phase, IsWokenSend()) >= |s.pool| - s.entry)
  }

  ghost predicate Inv(s: State)
  {
    RingOk(|s.pool|, s.inOff, s.out, s.entry) && ListsAgree(s) && NoneForgotten(s)
  }

  predicate Enabled(s: State, e: Step)
  {
    (e == ResetAll || e.t < |s.phase|) &&
    match e
    case Send(t, _, _) => s.phase[t].Idle?
    case Resend(t, _) => s.phase[t].WokenSend?
    case Recv(t, _) => s.phase[t].Idle?
    case Rerecv(t, _) => s.phase[t].WokenRecv?
    case Expire(t) => s.phase[t].WaitSend? || s.phase[t].WaitRecv?
    case ResetAll => true
    case SetPriority(_, _) => true
  }

  function At(s: State, t: nat, p: Phase): State
    requires t < |s.phase|
  {
    s.(phase := s.phase[t := p])
  }

  function Stored(s: State, t: nat, value: int): State
    requires t < |s.phase| && RingOk(|s.pool|, s.inOff, s.out, s.entry) && s.entry < |s.pool|
  {
    At(s, t, Idle).(pool := s.pool[s.inOff := value], inOff := Wrap(|s.pool|, s.inOff + 1), entry := s.entry + 1)
  }

  function Fetched(s: State, t: nat): State
    requires t < |s.phase| && 0 < s.entry
  {
    At(s, t, Idle).(out := Wrap(|s.pool|, s.out + 1), entry := s.entry - 1)
  }

  function WakeReceiver(s: State): State
    requires AllWait(s.receivers, s.phase, Receiving)
  {
    if s.receivers == [] then s
    else At(s, s.receivers[0], WokenRecv).(receivers := s.receivers[1..])
  }

  function WakeSender(s: State): State
    requires AllWait(s.senders, s.phase, Sending)
  {
    if s.senders == [] then s
    else At(s, s.senders[0], WokenSend(s.phase[s.senders[0]].value)).(senders := s.senders[1..])
  }

  /** Send: store and wake a receiver, wait for a place, or give up. */
  function Post(s: State, t: nat, value: int, block: bool): State
    requires Inv(s) && t < |s.phase| && !Receiving(s.phase[t]) && !Sending(s.phase[t])
  {
    if s.entry < |s.pool| then
      ListsOther(s.receivers, s.phase, Receiving, t, Idle);
      WakeReceiver(Stored(s, t, value))
    else if block then At(s, t, WaitSend(value)).(senders := Insert(s.senders, t, s.prio, s.flag))
    else At(s, t, Idle)
  }

  /** Receive: fetch and wake a sender, wait for a mail, or give up. */
  function Collect(s: State, t: nat, block: bool): State
    requires Inv(s) && t < |s.phase| && !Receiving(s.phase[t]) && !Sending(s.phase[t])
  {
    if s.entry > 0 then
      ListsOther(s.senders, s.phase, Sending, t, Idle);
      WakeSender(Fetched(s, t))
    else if block then At(s, t, WaitRecv).(receivers := Insert(s.receivers, t, s.prio, s.flag))
    else At(s, t, Idle)
  }

  function Released(phase: seq<Phase>): (r: seq<Phase>)
    ensures |r| == |phase|
    ensures forall i :: 0 <= i < |r| ==> r[i] == if phase[i].WaitSend? || phase[i].WaitRecv? then Idle else phase[i]
  {
    if phase == [] then []
    else [if phase[0].WaitSend? || phase[0].WaitRecv? then Idle else phase[0]] + Released(phase[1..])
  }

  function Next(s: State, e: Step): State
    requires Inv(s)
  {
    if !Enabled(s, e) then s
    else
      match e
      case Send(t, value, block) => Post(s, t, value, block)
      case Resend(t, block) => Post(s, t, s.phase[t].value, block)
      case Recv(t, block) => Collect(s, t, block)
      case Rerecv(t, block) => Collect(s, t, block)
      case Expire(t) => At(s, t, Idle).(receivers := Without(s.receivers, t), senders := Without(s.senders, t))
      case ResetAll =>
        s.(phase := Released(s.phase), receivers := [], senders := [], entry := 0, inOff := 0, out := 0)
      case SetPriority(t, p) => s.(prio := s.prio[t := p])
  }

  /** What one thread's move from phase to phase does to the two counts. */
  lemma CountsMove(s: State, t: nat, p: Phase)
    requires t < |s.phase|
    ensures Count(At(s, t, p).phase, IsWokenRecv()) ==
            Count(s.phase, IsWokenRecv()) - (if s.phase[t].WokenRecv? then 1 else 0) + if p.WokenRecv? then 1 else 0
    ensures Count(At(s, t, p).phase, IsWokenSend()) ==
            Count(s.phase, IsWokenSend()) - (if s.phase[t].WokenSend? then 1 else 0) + if p.WokenSend? then 1 else 0
  {
    CountUpdate(s.phase, IsWokenRecv(), t, p);
    CountUpdate(s.phase, IsWokenSend(), t, p);
  }

  lemma OtherLists(s: State, t: nat, p: Phase)
    requires ListsAgree(s) && t < |s.phase|
    requires !Receiving(s.phase[t]) && !Sending(s.phase[t]) && !Receiving(p) && !Sending(p)
    ensures ListsAgree(At(s, t, p))
  {
    ListsOther(s.receivers, s.phase, Receiving, t, p);
    ListsOther(s.senders, s.phase, Sending, t, p);
  }

  lemma WakeReceiverKeeps(s: State)
    requires ListsAgree(s)
    ensures ListsAgree(WakeReceiver(s))
    ensures s.receivers != [] ==> Count(WakeReceiver(s).phase, IsWokenRecv()) == Count(s.phase, IsWokenRecv()) + 1
    ensures Count(WakeReceiver(s).phase, IsWokenSend()) == Count(s.phase, IsWokenSend())
  {
    if s.receivers != [] {
      ListsHead(s.receivers, s.phase, Receiving, WokenRecv);
      ListsOther(s.senders, s.phase, Sending, s.receivers[0], WokenRecv);
      CountsMove(s, s.receivers[0], WokenRecv);
    }
  }

  lemma WakeSenderKeeps(s: State)
    requires ListsAgree(s)
    ensures ListsAgree(WakeSender(s))
    ensures s.senders != [] ==> Count(WakeSender(s).phase, IsWokenSend()) == Count(s.phase, IsWokenSend()) + 1
    ensures Count(WakeSender(s).phase, IsWokenRecv()) == Count(s.phase, IsWokenRecv())
  {
    if s.senders != [] {
      var p := WokenSend(s.phase[s.senders[0]].value);
      ListsHead(s.senders, s.phase, Sending, p);
      ListsOther(s.receivers, s.phase, Receiving, s.senders[0], p);
      CountsMove(s, s.senders[0], p);
    }
  }

  lemma PostKeepsInv(s: State, t: nat, value: int, block: bool)
    requires Inv(s) && t < |s.phase| && (s.phase[t].Idle? || s.phase[t].WokenSend?)
    ensures Inv(Post(s, t, value, block))
  {
    if s.entry < |s.pool| {
      StoreAppends(s.pool, s.inOff, s.out, s.entry, value);
      OtherLists(s, t, Idle);
      CountsMove(s, t, Idle);
      WakeReceiverKeeps(Stored(s, t, value));
    } else if block {
      ListsOther(s.receivers, s.phase, Receiving, t, WaitSend(value));
      ListsJoin(s.senders, s.phase, Sending, t, WaitSend(value), s.prio, s.flag);
      CountsMove(s, t, WaitSend(value));
    } else {
      OtherLists(s, t, Idle);
      CountsMove(s, t, Idle);
    }
  }

  lemma CollectKeepsInv(s: State, t: nat, block: bool)
    requires Inv(s) && t < |s.phase| && (s.phase[t].Idle? || s.phase[t].WokenRecv?)
    ensures Inv(Collect(s, t, block))
  {
    if s.entry > 0 {
      FetchTakes(s.pool, s.inOff, s.out, s.entry);
      OtherLists(s, t, Idle);
      CountsMove(s, t, Idle);
      WakeSenderKeeps(Fetched(s, t));
    } else if block {
      ListsOther(s.senders, s.phase, Sending, t, WaitRecv);
      ListsJoin(s.receivers, s.phase, Receiving, t, WaitRecv, s.prio, s.flag);
      CountsMove(s, t, WaitRecv);
    } else {
      OtherLists(s, t, Idle);
      CountsMove(s, t, Idle);
    }
  }

  lemma NextKeepsInv(s: State, e: Step)
    requires Inv(s)
    ensures Inv(Next(s, e))
  {
    if Enabled(s, e) {
      match e {
        case Send(t, value, block) => PostKeepsInv(s, t, value, block);
        case Resend(t, block) => PostKeepsInv(s, t, s.phase[t].value, block);
        case Recv(t, block) => CollectKeepsInv(s, t, block);
        case Rerecv(t, block) => CollectKeepsInv(s, t, block);
        case Expire(t) =>
          ListsWithout(s.receivers, s.phase, Receiving, t, Idle);
          ListsWithout(s.senders, s.phase, Sending, t, Idle);
          CountsMove(s, t, Idle);
          assert s.receivers == [] ==> Without(s.receivers, t) == [];
          assert s.senders == [] ==> Without(s.senders, t) == [];
        case ResetAll =>
        case SetPriority(t, p) =>
      }
    }
  }

  /** Any interleaving; disabled steps are skipped. */
  function Run(s: State, steps: seq<Step>): (r: State)
    requires Inv(s)
    ensures Inv(r)
    decreases |steps|
  {
    if steps == [] then s
    else
      NextKeepsInv(s, steps[0]);
      Run(Next(s, steps[0]), steps[1..])
  }

  ghost predicate Initial(s: State)
  {
    && |s.prio| == |s.phase| && (forall t :: 0 <= t < |s.phase| ==> s.phase[t].Idle?)
    && |s.pool| <= ENTRY_MAX && s.inOff == s.out == s.entry == 0 && s.receivers == [] && s.senders == []
  }

  /** In every reachable state a mail and a waiting receiver together mean a woken receiver on its way, and a
      free place and a waiting sender a woken sender. */
  lemma NoLostWakeup(s: State, steps: seq<Step>)
    requires Initial(s)
    ensures Inv(s)
    ensures var r := Run(s, steps);
            && (r.receivers != [] && r.entry > 0 ==> exists t :: 0 <= t < |r.phase| && r.phase[t].WokenRecv?)
            && (r.senders != [] && r.entry < |r.pool| ==> exists t :: 0 <= t < |r.phase| && r.phase[t].WokenSend?)
            && NoneForgotten(r)
  {
    var r := Run(s, steps);
    if r.receivers != [] && r.entry > 0 {
      CountedSomewhere(r.phase, IsWokenRecv());
    }
    if r.senders != [] && r.entry < |r.pool| {
      CountedSomewhere(r.phase, IsWokenSend());
    }
  }

  // ---- order ----

  function InBox(s: State): seq<int>
    requires Inv(s)
  {
    Mails(s.pool, s.out, s.entry)
  }

  /** The mail a step puts in, and the one its caller takes out. */
  function Put(s: State, e: Step): seq<int>
  {
    if !Enabled(s, e) || s.entry >= |s.pool| then []
    else if e.Send? then [e.value] else if e.Resend? then [s.phase[e.t].value] else []
  }

  function Taken(s: State, e: Step): seq<int>
  {
    if Enabled(s, e) && (e.Recv? || e.Rerecv?) && s.entry > 0 && s.out < |s.pool| then [s.pool[s.out]] else []
  }

  lemma PostOrder(s: State, t: nat, value: int, block: bool)
    requires Inv(s) && t < |s.phase| && (s.phase[t].Idle? || s.phase[t].WokenSend?)
    ensures Inv(Post(s, t, value, block))
    ensures InBox(Post(s, t, value, block)) == InBox(s) + if s.entry < |s.pool| then [value] else []
  {
    PostKeepsInv(s, t, value, block);
    if s.entry < |s.pool| {
      StoreAppends(s.pool, s.inOff, s.out, s.entry, value);
    }
  }

  lemma CollectOrder(s: State, t: nat, block: bool)
    requires Inv(s) && t < |s.phase| && (s.phase[t].Idle? || s.phase[t].WokenRecv?)
    ensures Inv(Collect(s, t, block)) && (s.entry > 0 ==> s.out < |s.pool|)
    ensures InBox(s) == (if s.entry > 0 then [s.pool[s.out]] else []) + InBox(Collect(s, t, block))
  {
    CollectKeepsInv(s, t, block);
    if s.entry > 0 {
      FetchTakes(s.pool, s.inOff, s.out, s.entry);
    }
  }

  lemma StepOrder(s: State, e: Step)
    requires Inv(s) && e != ResetAll
    ensures Inv(Next(s, e))
    ensures InBox(s) + Put(s, e) == Taken(s, e) + InBox(Next(s, e))
  {
    if Enabled(s, e) {
      match e {
        case Send(t, value, block) => PostOrder(s, t, value, block);
        case Resend(t, block) => PostOrder(s, t, s.phase[t].value, block);
        case Recv(t, block) => CollectOrder(s, t, block);
        case Rerecv(t, block) => CollectOrder(s, t, block);
        case Expire(t) => QuietStep(s, e);
        case SetPriority(t, p) => QuietStep(s, e);
      }
    }
  }

  lemma QuietStep(s: State, e: Step)
    requires Inv(s) && (e.Expire? || e.SetPriority?)
    ensures Inv(Next(s, e)) && InBox(Next(s, e)) == InBox(s)
  {
    NextKeepsInv(s, e);
  }

  function AllPut(s: State, steps: seq<Step>): seq<int>
    requires Inv(s)
    decreases |steps|
  {
    if steps == [] then []
    else
      NextKeepsInv(s, steps[0]);
      Put(s, steps[0]) + AllPut(Next(s, steps[0]), steps[1..])
  }

  function AllTaken(s: State, steps: seq<Step>): seq<int>
    requires Inv(s)
    decreases |steps|
  {
    if steps == [] then []
    else
      NextKeepsInv(s, steps[0]);
      Taken(s, steps[0]) + AllTaken(Next(s, steps[0]), steps[1..])
  }

  /** First in, first out over every run without a reset, whoever waits, wakes or times out. */
  lemma {:induction false} MailboxIsFifo(s: State, steps: seq<Step>)
    requires Inv(s) && ResetAll !in steps
    ensures InBox(s) + AllPut(s, steps) == AllTaken(s, steps) + InBox(Run(s, steps))
    decreases |steps|
  {
    if steps != [] {
      var e, rest := steps[0], steps[1..];
      StepOrder(s, e);
      var m := Next(s, e);
      MailboxIsFifo(m, rest);
      FifoGlue(InBox(s), Put(s, e), AllPut(m, rest), Taken(s, e), InBox(m), AllTaken(m, rest), InBox(Run(m, rest)));
    }
  }

  // ---- what each step does ----

  /** At most threads `t` and `u` are elsewhere than before. */
  ghost predicate OnlyMove(s: State, r: State, t: nat, u: nat)
  {
    && |r.phase| == |s.phase| && (forall v :: 0 <= v < |s.phase| && v != t && v != u ==> r.phase[v] == s.phase[v])
    && r.flag == s.flag && r.prio == s.prio
  }

  ghost predicate SameRing(s: State, r: State)
  {
    r.pool == s.pool && r.inOff == s.inOff && r.out == s.out && r.entry == s.entry
  }

  /** Who may take which step; any other step changes nothing. */
  lemma WhoMayStep(s: State, e: Step)
    requires Inv(s)
    ensures e.Send? || e.Recv? ==> (Enabled(s, e) <==> e.t < |s.phase| && s.phase[e.t].Idle?)
    ensures e.Resend? ==> (Enabled(s, e) <==> e.t < |s.phase| && s.phase[e.t].WokenSend?)
    ensures e.Rerecv? ==> (Enabled(s, e) <==> e.t < |s.phase| && s.phase[e.t].WokenRecv?)
    ensures e.Expire? ==> (Enabled(s, e) <==> e.t < |s.phase| && (s.phase[e.t].WaitSend? || s.phase[e.t].WaitRecv?))
    ensures e.ResetAll? ==> Enabled(s, e)
    ensures e.SetPriority? ==> (Enabled(s, e) <==> e.t < |s.phase|)
    ensures !Enabled(s, e) ==> Next(s, e) == s
  {
  }

  lemma ListsKnown(s: State)
    requires Inv(s)
    ensures Known(s.senders, s.prio) && Known(s.receivers, s.prio)
  {
  }

  /** A send into a box with room appends the mail ... */
  lemma SendStores(s: State, e: Step)
    requires Inv(s) && (e.Send? || e.Resend?) && Enabled(s, e) && s.entry < |s.pool|
    ensures var r, value := Next(s, e), if e.Send? then e.value else s.phase[e.t].value;
            && RingOk(|r.pool|, r.inOff, r.out, r.entry)
            && Mails(r.pool, r.out, r.entry) == Mails(s.pool, s.out, s.entry) + [value]
  {
    StoreAppends(s.pool, s.inOff, s.out, s.entry, if e.Send? then e.value else s.phase[e.t].value);
    SendMovesRing(s, e);
  }

  lemma SendMovesRing(s: State, e: Step)
    requires Inv(s) && (e.Send? || e.Resend?) && Enabled(s, e) && s.entry < |s.pool|
    ensures var r := Next(s, e);
            && r.pool == s.pool[s.inOff := if e.Send? then e.value else s.phase[e.t].value]
            && r.inOff == Wrap(|s.pool|, s.inOff + 1) && r.out == s.out && r.entry == s.entry + 1
  {
  }

  /** ... and wakes the first receiver in line, and nobody else. */
  lemma SendWakesFirst(s: State, e: Step)
    requires Inv(s) && (e.Send? || e.Resend?) && Enabled(s, e) && s.entry < |s.pool|
    ensures var r, t := Next(s, e), e.t;
            && r.senders == s.senders
            && if s.receivers == [] then OnlyMove(s, r, t, t) && r.phase[t] == Idle && r.receivers == []
               else
                 var u := s.receivers[0];
                 && u != t && u < |s.phase| && OnlyMove(s, r, t, u) && r.phase[t] == Idle && r.phase[u] == WokenRecv
                 && s.receivers == [u] + r.receivers
  {
    if s.receivers != [] {
      assert s.phase[s.receivers[0]].WaitRecv? && s.receivers == [s.receivers[0]] + s.receivers[1..];
    }
  }

  /** Into a full box it waits in its place in line, or returns with nothing done when it has no time left. */
  lemma SendWaits(s: State, e: Step)
    requires Inv(s) && (e.Send? || e.Resend?) && Enabled(s, e) && s.entry == |s.pool|
    ensures Known(s.senders, s.prio)
    ensures var r, t, value := Next(s, e), e.t, if e.Send? then e.value else s.phase[e.t].value;
            && OnlyMove(s, r, t, t) && SameRing(s, r) && r.receivers == s.receivers
            && if e.block then r.phase[t] == WaitSend(value) && InLine(s.senders, t, s.prio, s.flag, r.senders)
               else r.phase[t] == Idle && r.senders == s.senders
  {
    ListsKnown(s);
    JoinsInLine(s.senders, e.t, s.prio, s.flag);
  }

  /** A receive from a box with mail takes the oldest ... */
  lemma RecvTakes(s: State, e: Step)
    requires Inv(s) && (e.Recv? || e.Rerecv?) && Enabled(s, e) && s.entry > 0
    ensures var r := Next(s, e);
            && RingOk(|r.pool|, r.inOff, r.out, r.entry) && s.out < |s.pool|
            && Mails(s.pool, s.out, s.entry) == [s.pool[s.out]] + Mails(r.pool, r.out, r.entry)
  {
    FetchTakes(s.pool, s.inOff, s.out, s.entry);
    RecvMovesRing(s, e);
  }

  lemma RecvMovesRing(s: State, e: Step)
    requires Inv(s) && (e.Recv? || e.Rerecv?) && Enabled(s, e) && s.entry > 0
    ensures var r := Next(s, e);
            r.pool == s.pool && r.inOff == s.inOff && r.out == Wrap(|s.pool|, s.out + 1) && r.entry == s.entry - 1
  {
  }

  /** ... and wakes the first sender in line, and nobody else. */
  lemma RecvWakesFirst(s: State, e: Step)
    requires Inv(s) && (e.Recv? || e.Rerecv?) && Enabled(s, e) && s.entry > 0
    ensures var r, t := Next(s, e), e.t;
            && r.receivers == s.receivers
            && if s.senders == [] then OnlyMove(s, r, t, t) && r.phase[t] == Idle && r.senders == []
               else
                 var u := s.senders[0];
                 && u != t && u < |s.phase| && s.phase[u].WaitSend? && OnlyMove(s, r, t, u) && r.phase[t] == Idle
                 && r.phase[u] == WokenSend(s.phase[u].value) && s.senders == [u] + r.senders
  {
    if s.senders != [] {
      assert s.phase[s.senders[0]].WaitSend? && s.senders == [s.senders[0]] + s.senders[1..];
    }
  }

  /** From an empty box it waits in its place in line, or returns with nothing done when it has no time left. */
  lemma RecvWaits(s: State, e: Step)
    requires Inv(s) && (e.Recv? || e.Rerecv?) && Enabled(s, e) && s.entry == 0
    ensures Known(s.receivers, s.prio)
    ensures var r, t := Next(s, e), e.t;
            && OnlyMove(s, r, t, t) && SameRing(s, r) && r.senders == s.senders
            && if e.block then r.phase[t] == WaitRecv && InLine(s.receivers, t, s.prio, s.flag, r.receivers)
               else r.phase[t] == Idle && r.receivers == s.receivers
  {
    ListsKnown(s);
    JoinsInLine(s.receivers, e.t, s.prio, s.flag);
  }

  /** A new priority is the thread's from then on; who waits keeps its place. */
  lemma PriorityChanges(s: State, t: nat, p: nat)
    requires Inv(s) && t < |s.phase|
    ensures var r := Next(s, SetPriority(t, p));
            && |r.prio| == |s.prio| == |s.phase| && r == s.(prio := r.prio) && r.prio[t] == p
            && forall u :: 0 <= u < |s.prio| && u != t ==> r.prio[u] == s.prio[u]
  {
  }

  /** A timeout takes its thread out of line and out of the call, a reset everybody who waits; nobody else. */
  lemma WaitingEnds(s: State, e: Step)
    requires Inv(s) && (e.Expire? || e.ResetAll?) && Enabled(s, e)
    ensures var r := Next(s, e);
            && |r.phase| == |s.phase| && r.flag == s.flag && r.prio == s.prio && r.pool == s.pool
            && (e.Expire? ==>
                 && OnlyMove(s, r, e.t, e.t) && r.phase[e.t] == Idle && SameRing(s, r)
                 && LeftLine(s.receivers, e.t, r.receivers) && LeftLine(s.senders, e.t, r.senders))
            && (e.ResetAll? ==>
                 && r.entry == 0 && r.receivers == r.senders == []
                 && forall u :: 0 <= u < |s.phase| ==>
                      r.phase[u] == if s.phase[u].WaitSend? || s.phase[u].WaitRecv? then Idle else s.phase[u])
  {
    if e.Expire? {
      LeavesLine(s.receivers, e.t);
      LeavesLine(s.senders, e.t);
    }
  }
}
