/** The RTT up-buffer: a byte ring with one writer (the target) and one reader (the host) that runs at
    the same time. First the ring as one side sees it while the other rests, method by method; then the
    interleaving of both sides at every shared load, byte copy and offset store. */
module RttRing {

  datatype Mode = Skip | Trim | Block

  // ---- the geometry of the ring ----

  /** The position `k` bytes after `off`, once around at most. */
  function Pos(size: nat, off: nat, k: nat): nat
    requires off < size && k <= size
  {
    if off + k < size then off + k else off + k - size
  }

  /** How far slot `i` lies after `off` going round: the inverse of Pos. */
  function Dist(size: nat, off: nat, i: nat): (k: nat)
    requires off < size && i < size
    ensures k < size && Pos(size, off, k) == i
  {
    if off <= i then i - off else i + size - off
  }

  predicate Offsets(size: nat, rd: nat, wr: nat)
  {
    rd < size && wr < size
  }

  /** Bytes published and not yet read. */
  function Used(size: nat, rd: nat, wr: nat): nat
    requires Offsets(size, rd, wr)
  {
    if rd <= wr then wr - rd else size - rd + wr
  }

  /** The free space as the writer computes it: one slot always stays empty. */
  function AvailWriteSpace(size: nat, rd: nat, wr: nat): (r: nat)
    requires Offsets(size, rd, wr)
    ensures r + Used(size, rd, wr) == size - 1
  {
    if rd <= wr then size - 1 - wr + rd else rd - wr - 1
  }

  function Contents(buf: seq<char>, rd: nat, wr: nat): (c: seq<char>)
    requires Offsets(|buf|, rd, wr)
    ensures |c| == Used(|buf|, rd, wr)
  {
    if rd <= wr then buf[rd..wr] else buf[rd..] + buf[..wr]
  }

  lemma ContentsAt(buf: seq<char>, rd: nat, wr: nat, j: nat)
    requires Offsets(|buf|, rd, wr) && j < Used(|buf|, rd, wr)
    ensures Pos(|buf|, rd, j) < |buf|
    ensures Contents(buf, rd, wr)[j] == buf[Pos(|buf|, rd, j)]
  {
  }

  /** A byte stored in the free space leaves what is published alone. */
  lemma StoreInFree(buf: seq<char>, rd: nat, wr: nat, k: nat, c: char)
    requires Offsets(|buf|, rd, wr) && k < AvailWriteSpace(|buf|, rd, wr)
    ensures Pos(|buf|, wr, k) < |buf|
    ensures Contents(buf[Pos(|buf|, wr, k) := c], rd, wr) == Contents(buf, rd, wr)
  {
  }

  /** `after` is `before` with `bytes` stored round the ring from the write offset on. */
  ghost predicate Stored(before: seq<char>, after: seq<char>, wr: nat, bytes: seq<char>)
    requires wr < |before|
  {
    && |after| == |before|
    && forall i :: 0 <= i < |before| ==>
      after[i] == var k := Dist(|before|, wr, i); if k < |bytes| then bytes[k] else before[i]
  }

  /** Moving the write offset past bytes stored in the free space appends exactly those bytes. */
  lemma Publish(before: seq<char>, after: seq<char>, rd: nat, wr: nat, bytes: seq<char>)
    requires Offsets(|before|, rd, wr) && |bytes| <= AvailWriteSpace(|before|, rd, wr)
    requires Stored(before, after, wr, bytes)
    ensures Pos(|after|, wr, |bytes|) < |after|
    ensures Contents(after, rd, wr) == Contents(before, rd, wr)
    ensures Contents(after, rd, Pos(|after|, wr, |bytes|)) == Contents(before, rd, wr) + bytes
  {
    var size := |before|;
    var to := Pos(size, wr, |bytes|);
    var all, shown := Contents(after, rd, to), Contents(before, rd, wr);
    assert |all| == |shown| + |bytes|;
    forall j | 0 <= j < |all|
      ensures all[j] == (shown + bytes)[j]
    {
      ContentsAt(after, rd, to, j);
      if j < |shown| {
        ContentsAt(before, rd, wr, j);
      } else {
        assert Dist(size, wr, Pos(size, rd, j)) == j - |shown|;
      }
    }
    forall j | 0 <= j < |shown|
      ensures Contents(after, rd, wr)[j] == shown[j]
    {
      ContentsAt(after, rd, wr, j);
      ContentsAt(before, rd, wr, j);
    }
  }

  /** Moving the read offset by `k` published bytes drops exactly the first `k`. */
  lemma Consume(buf: seq<char>, rd: nat, wr: nat, k: nat)
    requires Offsets(|buf|, rd, wr) && k <= Used(|buf|, rd, wr)
    ensures Pos(|buf|, rd, k) < |buf|
    ensures Contents(buf, Pos(|buf|, rd, k), wr) == Contents(buf, rd, wr)[k..]
  {
    var to := Pos(|buf|, rd, k);
    var now, was := Contents(buf, to, wr), Contents(buf, rd, wr);
    assert |now| == |was| - k;
    forall j | 0 <= j < |now|
      ensures now[j] == was[k..][j]
    {
      ContentsAt(buf, to, wr, j);
      ContentsAt(buf, rd, wr, k + j);
    }
  }

  /** The first `n` published bytes lie in at most two runs of slots. */
  lemma FrontRuns(buf: seq<char>, rd: nat, wr: nat, n: nat)
    requires Offsets(|buf|, rd, wr) && n <= Used(|buf|, rd, wr)
    ensures Contents(buf, rd, wr)[..n] ==
            if rd + n <= |buf| then buf[rd..rd + n] else buf[rd..] + buf[..rd + n - |buf|]
  {
  }

  /** What a reader has taken and what it leaves is what was published. */
  lemma ReadOut(buf: seq<char>, rd: nat, wr: nat, got: seq<char>)
    requires Offsets(|buf|, rd, wr) && |got| <= Used(|buf|, rd, wr)
    requires var n := |got|; got == if rd + n <= |buf| then buf[rd..rd + n] else buf[rd..] + buf[..rd + n - |buf|]
    ensures Pos(|buf|, rd, |got|) < |buf|
    ensures got + Contents(buf, Pos(|buf|, rd, |got|), wr) == Contents(buf, rd, wr)
  {
    FrontRuns(buf, rd, wr, |got|);
    Consume(buf, rd, wr, |got|);
  }

  // ---- one side at a time ----

  function Min(a: nat, b: nat): nat { if a < b then a else b }

  /** How many bytes one write call takes, given the space it saw. */
  function Accepted(mode: Mode, avail: nat, n: nat): nat
  {
    match mode
    case Skip => if avail < n then 0 else n
    case Trim => Min(avail, n)
    case Block => n
  }

  /** Skip is all or nothing, Trim the most that fits. */
  lemma AcceptedFits(mode: Mode, avail: nat, n: nat)
    requires mode != Block
    ensures var k := Accepted(mode, avail, n);
            && k <= n && k <= avail && (n <= avail ==> k == n)
            && (n > avail ==> k == if mode == Skip then 0 else avail)
  {
  }

  class Ring {
    const data: array<char>
    var rdOff: nat
    var wrOff: nat

    ghost predicate Valid()
      reads this
    {
      Offsets(data.Length, rdOff, wrOff)
    }

    ghost function View(): seq<char>
      reads this, data
      requires Valid()
    {
      Contents(data[..], rdOff, wrOff)
    }

    constructor (size: nat)
      requires size > 0
      ensures Valid() && fresh(data) && data.Length == size && View() == []
    {
      data := new char[size];
      rdOff, wrOff := 0, 0;
    }

    method GetAvailWriteSpace() returns (r: nat)
      requires Valid()
      ensures r == data.Length - 1 - |View()|
    {
      if rdOff <= wrOff {
        r := data.Length - 1 - wrOff + rdOff;
      } else {
        r := rdOff - wrOff - 1;
      }
    }

    /** Copies `src` to consecutive slots. */
    method CopyIn(at: nat, src: seq<char>)
      requires at + |src| <= data.Length
      modifies data
      ensures forall i :: 0 <= i < data.Length ==>
        data[i] == if at <= i < at + |src| then src[i - at] else old(data[i])
    {
      for k := 0 to |src|
        invariant forall i :: 0 <= i < data.Length ==>
          data[i] == if at <= i < at + k then src[i - at] else old(data[i])
      {
        data[at + k] := src[k];
      }
    }

    /** Copies `bytes` from the write offset on, in one or two runs, and then moves the offset. */
    method WriteNoCheck(bytes: seq<char>)
      requires Valid() && |bytes| < data.Length - |View()|
      modifies this`wrOff, data
      ensures Valid() && View() == old(View()) + bytes
    {
      var rem := data.Length - wrOff;
      if rem > |bytes| {
        CopyIn(wrOff, bytes);
        Publish(old(data[..]), data[..], rdOff, wrOff, bytes);
        wrOff := wrOff + |bytes|;
      } else {
        CopyIn(wrOff, bytes[..rem]);
        CopyIn(0, bytes[rem..]);
        Publish(old(data[..]), data[..], rdOff, wrOff, bytes);
        wrOff := |bytes| - rem;
      }
    }

    /** The non-blocking modes: Skip stores all or nothing, Trim the longest prefix that fits. */
    method WriteNoLock(mode: Mode, bytes: seq<char>) returns (status: nat)
      requires Valid() && mode != Block
      modifies this`wrOff, data
      ensures status <= |bytes|
      ensures status == Accepted(mode, data.Length - 1 - |old(View())|, |bytes|)
      ensures |old(View())| + |bytes| < data.Length ==> status == |bytes|
      ensures |old(View())| + |bytes| >= data.Length ==>
                if mode == Skip then status == 0 else |old(View())| + status == data.Length - 1
      ensures Valid() && View() == old(View()) + bytes[..status]
    {
      var avail := GetAvailWriteSpace();
      if mode == Skip {
        if avail < |bytes| {
          status := 0;
        } else {
          status := |bytes|;
          assert bytes[..status] == bytes;
          WriteNoCheck(bytes);
        }
      } else {
        status := if avail < |bytes| then avail else |bytes|;
        WriteNoCheck(bytes[..status]);
      }
    }

    /** Takes at most `cap` bytes off the front, in one or two runs. */
    method Read(cap: nat) returns (got: seq<char>)
      requires Valid()
      modifies this`rdOff
      ensures Valid() && |got| == Min(cap, |old(View())|)
      ensures got + View() == old(View())
    {
      var rd, wr, left := rdOff, wrOff, cap;
      ghost var buf, rd0 := data[..], rd;
      got := [];
      if rd > wr {
        var run := Min(data.Length - rd, left);
        got := data[rd..rd + run];
        assert got == buf[rd..rd + run];
        left := left - run;
        rd := rd + run;
        if rd == data.Length {
          rd := 0;
        }
      }
      // a caller's buffer filled by the first run leaves `rd` beyond `wr`; nothing more is taken then
      if rd < wr {
        var rest := Min(wr - rd, left);
        ghost var first := got;
        got := got + data[rd..rd + rest];
        assert got == first + buf[rd..rd + rest];
        rd := rd + rest;
      }
      ReadOut(buf, rd0, wr, got);
      if |got| > 0 {
        rdOff := rd;
      }
      assert data[..] == buf && rdOff == Pos(|buf|, rd0, |got|);
    }

    /** One turn of the blocking loop: as much of `bytes` as fits before the reader or the ring's end. */
    method WriteRun(bytes: seq<char>) returns (n: nat)
      requires Valid()
      modifies this`wrOff, data
      ensures Valid() && n <= |bytes|
      ensures View() == old(View()) + bytes[..n]
      ensures n == 0 <==> bytes == [] || |old(View())| == data.Length - 1
    {
      var space := if rdOff > wrOff then rdOff - wrOff - 1 else data.Length - (wrOff - rdOff + 1);
      n := Min(Min(space, data.Length - wrOff), |bytes|);
      CopyIn(wrOff, bytes[..n]);
      Publish(old(data[..]), data[..], rdOff, wrOff, bytes[..n]);
      wrOff := wrOff + n;
      if wrOff == data.Length {
        wrOff := 0;
      }
    }

    /** The host takes up to `cap` bytes, then the writer stores what fits in one run. */
    method Turn(cap: nat, bytes: seq<char>) returns (got: seq<char>, n: nat)
      requires Valid()
      modifies this, data
      ensures Valid() && n <= |bytes|
      ensures got + View() == old(View()) + bytes[..n]
    {
      got := Read(cap);
      ghost var shown := View();
      n := WriteRun(bytes);
      Regroup(got, shown, bytes[..n]);
    }

    /** The blocking mode against a host that takes up to `drains[i]` bytes before the i-th look at its
        offset: what the writer publishes is always the next stretch of `bytes`, and it returns only when
        all of it is out. */
    method WriteBlocking(bytes: seq<char>, drains: seq<nat>) returns (done: bool, written: nat, taken: seq<char>)
      requires Valid()
      modifies this, data
      ensures Valid() && written <= |bytes|
      ensures taken + View() == old(View()) + bytes[..written]
      ensures done ==> written == |bytes|
      ensures !done ==> drains == [] || written < |bytes|
    {
      done, written, taken := false, 0, [];
      ghost var start := View();
      for i := 0 to |drains|
        invariant Valid() && written <= |bytes|
        invariant taken + View() == start + bytes[..written]
        invariant i > 0 ==> written < |bytes|
      {
        ghost var shown := View();
        var got, n := Turn(drains[i], bytes[written..]);
        JoinRuns(taken, shown, start, bytes, written, n, got, View());
        taken := taken + got;
        written := written + n;
        if written == |bytes| {
          return true, written, taken;
        }
      }
    }
  }

  lemma Regroup(a: seq<char>, b: seq<char>, c: seq<char>)
    ensures a + (b + c) == (a + b) + c
  {
  }

  lemma JoinRuns(taken: seq<char>, shown: seq<char>, start: seq<char>, bytes: seq<char>, w: nat, n: nat,
                 got: seq<char>, now: seq<char>)
    requires w + n <= |bytes| && taken + shown == start + bytes[..w] && got + now == shown + bytes[w..][..n]
    ensures (taken + got) + now == start + bytes[..w + n]
  {
    Regroup(taken, got, now);
    Regroup(taken, shown, bytes[w..][..n]);
    Regroup(start, bytes[..w], bytes[w..][..n]);
    assert bytes[..w] + bytes[w..][..n] == bytes[..w + n];
  }

  // ---- both sides at once ----

  /** The writer between its shared accesses: outside a call, about to look at the read offset again, or
      copying a run of `run` bytes of `rest`, `done` of them already in their slots. */
  datatype Writer = Quiet | Looking(rest: seq<char>) | Storing(mode: Mode, rest: seq<char>, run: nat, done: nat)

  /** The reader: outside a call, or `got` of the `want` bytes it saw published. */
  datatype Reader = Resting | Fetching(want: nat, got: seq<char>)

  /** `accepted` are the bytes of all write calls so far that the caller is told are stored, `written` the
      bytes published, `seen` the bytes whose reading has been acknowledged by the read offset. */
  datatype State = State(
    buf: seq<char>, rd: nat, wr: nat, writer: Writer, reader: Reader,
    accepted: seq<char>, written: seq<char>, seen: seq<char>)

  /** One access to shared memory by one side, with that side's local work. */
  datatype Step =
    | Start(mode: Mode, bytes: seq<char>)
    | LookAtRd
    | StoreByte
    | StoreWr
    | LookAtWr(cap: nat)
    | FetchByte
    | StoreRd

  predicate Enabled(s: State, e: Step)
  {
    match e
    case Start(_, _) => s.writer.Quiet?
    case LookAtRd => s.writer.Looking?
    case StoreByte => s.writer.Storing? && s.writer.done < s.writer.run
    case StoreWr => s.writer.Storing? && s.writer.done == s.writer.run
    case LookAtWr(_) => s.reader.Resting?
    case FetchByte => s.reader.Fetching? && |s.reader.got| < s.reader.want
    case StoreRd => s.reader.Fetching? && |s.reader.got| == s.reader.want
  }

  ghost predicate Inv(s: State)
  {
    && Offsets(|s.buf|, s.rd, s.wr)
    && s.written == s.seen + Contents(s.buf, s.rd, s.wr)
    && s.accepted == s.written + (if s.writer.Quiet? then [] else s.writer.rest)
    && (s.writer.Storing? ==>
      && s.writer.done <= s.writer.run <= |s.writer.rest|
      && s.writer.run <= AvailWriteSpace(|s.buf|, s.rd, s.wr)
      && (s.writer.mode != Block ==> s.writer.run == |s.writer.rest|)
      && forall j :: 0 <= j < s.writer.done ==> s.buf[Pos(|s.buf|, s.wr, j)] == s.writer.rest[j])
    && (s.reader.Fetching? ==>
      && |s.reader.got| <= s.reader.want <= Used(|s.buf|, s.rd, s.wr)
      && s.reader.got == Contents(s.buf, s.rd, s.wr)[..|s.reader.got|])
  }

  ghost function Next(s: State, e: Step): State
    requires Inv(s)
  {
    if !Enabled(s, e) then s
    else
      var size := |s.buf|;
      match e
      case Start(mode, bytes) =>
        if mode == Block then s.(writer := Looking(bytes), accepted := s.accepted + bytes)
        else
          var n := Accepted(mode, AvailWriteSpace(size, s.rd, s.wr), |bytes|);
          s.(writer := Storing(mode, bytes[..n], n, 0), accepted := s.accepted + bytes[..n])
      case LookAtRd =>
        var n := Min(Min(AvailWriteSpace(size, s.rd, s.wr), size - s.wr), |s.writer.rest|);
        s.(writer := Storing(Block, s.writer.rest, n, 0))
      case StoreByte =>
        var w := s.writer;
        s.(buf := s.buf[Pos(size, s.wr, w.done) := w.rest[w.done]], writer := w.(done := w.done + 1))
      case StoreWr =>
        var w := s.writer;
        var left := w.rest[w.run..];
        s.(wr := Pos(size, s.wr, w.run), written := s.written + w.rest[..w.run],
           writer := if w.mode == Block && left != [] then Looking(left) else Quiet)
      case LookAtWr(cap) =>
        s.(reader := Fetching(Min(cap, Used(size, s.rd, s.wr)), []))
      case FetchByte =>
        var r := s.reader;
        ContentsAt(s.buf, s.rd, s.wr, |r.got|);
        s.(reader := r.(got := r.got + [s.buf[Pos(size, s.rd, |r.got|)]]))
      case StoreRd =>
        s.(rd := Pos(size, s.rd, s.reader.want), seen := s.seen + s.reader.got, reader := Resting)
  }

  lemma StartKeepsInv(s: State, mode: Mode, bytes: seq<char>)
    requires Inv(s) && s.writer.Quiet?
    ensures Inv(Next(s, Start(mode, bytes)))
  {
  }

  lemma StoreByteKeepsInv(s: State)
    requires Inv(s) && Enabled(s, StoreByte)
    ensures Inv(Next(s, StoreByte))
  {
    var w := s.writer;
    StoreInFree(s.buf, s.rd, s.wr, w.done, w.rest[w.done]);
  }

  lemma StoreWrKeepsInv(s: State)
    requires Inv(s) && Enabled(s, StoreWr)
    ensures Inv(Next(s, StoreWr))
  {
    var w := s.writer;
    var run, left := w.rest[..w.run], w.rest[w.run..];
    var t := Next(s, StoreWr);
    assert w.rest == run + left;
    Publish(s.buf, s.buf, s.rd, s.wr, run);
    Regroup(s.seen, Contents(s.buf, s.rd, s.wr), run);
    Regroup(s.written, run, left);
    assert t.written == t.seen + Contents(t.buf, t.rd, t.wr);
    assert t.accepted == t.written + left;
  }

  lemma FetchByteKeepsInv(s: State)
    requires Inv(s) && Enabled(s, FetchByte)
    ensures Inv(Next(s, FetchByte))
  {
    ContentsAt(s.buf, s.rd, s.wr, |s.reader.got|);
  }

  lemma StoreRdKeepsInv(s: State)
    requires Inv(s) && Enabled(s, StoreRd)
    ensures Inv(Next(s, StoreRd))
  {
    var c := Contents(s.buf, s.rd, s.wr);
    Consume(s.buf, s.rd, s.wr, s.reader.want);
    assert c == c[..s.reader.want] + c[s.reader.want..];
  }

  lemma NextKeepsInv(s: State, e: Step)
    requires Inv(s)
    ensures Inv(Next(s, e))
  {
    if Enabled(s, e) {
      match e {
        case Start(mode, bytes) => StartKeepsInv(s, mode, bytes);
        case LookAtRd =>
        case StoreByte => StoreByteKeepsInv(s);
        case StoreWr => StoreWrKeepsInv(s);
        case LookAtWr(cap) =>
        case FetchByte => FetchByteKeepsInv(s);
        case StoreRd => StoreRdKeepsInv(s);
      }
    }
  }

  ghost predicate Initial(s: State)
  {
    && |s.buf| > 0 && s.rd == s.wr == 0
    && s.writer.Quiet? && s.reader.Resting?
    && s.accepted == s.written == s.seen == []
  }

  /** Any interleaving: the steps of the two sides in any order, disabled ones skipped. */
  ghost function Run(s: State, steps: seq<Step>): (t: State)
    requires Inv(s)
    ensures Inv(t)
    decreases |steps|
  {
    if steps == [] then s
    else
      NextKeepsInv(s, steps[0]);
      Run(Next(s, steps[0]), steps[1..])
  }

  /** The ring is a FIFO under every interleaving: what the reader has is a prefix of what was published,
      which is a prefix of what the write calls accepted, and nothing is missing once both sides rest. */
  lemma RingIsFifo(s: State, steps: seq<Step>)
    requires Initial(s)
    ensures var t := Run(s, steps);
            && t.seen <= t.written <= t.accepted
            && (t.reader.Fetching? ==> t.seen + t.reader.got <= t.written)
            && (t.writer.Quiet? && t.rd == t.wr ==> t.seen == t.accepted)
            && |t.written| - |t.seen| + AvailWriteSpace(|t.buf|, t.rd, t.wr) == |t.buf| - 1
  {
    assert Contents(s.buf, s.rd, s.wr) == [];
    var t := Run(s, steps);
    if t.reader.Fetching? {
      assert t.seen + t.reader.got == (t.seen + Contents(t.buf, t.rd, t.wr))[..|t.seen| + |t.reader.got|];
    }
  }

  /** The two sides never touch the same slot: the slot the writer fills next is not the slot the reader
      fetches next, and the reader fetches only published slots. */
  lemma NoSlotIsShared(s: State, steps: seq<Step>)
    requires Initial(s)
    ensures var t := Run(s, steps);
            Enabled(t, StoreByte) && Enabled(t, FetchByte) ==>
              Pos(|t.buf|, t.wr, t.writer.done) != Pos(|t.buf|, t.rd, |t.reader.got|)
    ensures var t := Run(s, steps);
            Enabled(t, FetchByte) ==>
              && |t.seen| + |t.reader.got| < |t.written|
              && t.buf[Pos(|t.buf|, t.rd, |t.reader.got|)] == t.written[|t.seen| + |t.reader.got|]
  {
    assert Contents(s.buf, s.rd, s.wr) == [];
    var t := Run(s, steps);
    if Enabled(t, FetchByte) {
      ContentsAt(t.buf, t.rd, t.wr, |t.reader.got|);
    }
  }

  // ---- each side alone, from the start of its call to the end ----

  function Times(e: Step, k: nat): (steps: seq<Step>)
    ensures |steps| == k
  {
    if k == 0 then [] else [e] + Times(e, k - 1)
  }

  lemma RunFirst(s: State, e: Step, rest: seq<Step>)
    requires Inv(s)
    ensures Inv(Next(s, e)) && Run(s, [e] + rest) == Run(Next(s, e), rest)
  {
    NextKeepsInv(s, e);
    assert ([e] + rest)[1..] == rest;
  }

  lemma {:induction false} RunAppend(s: State, a: seq<Step>, b: seq<Step>)
    requires Inv(s)
    ensures Run(s, a + b) == Run(Run(s, a), b)
    decreases |a|
  {
    if a == [] {
      assert a + b == b;
    } else {
      var e, more := a[0], a[1..];
      RunFirst(s, e, more + b);
      RunFirst(s, e, more);
      RunAppend(Next(s, e), more, b);
      FirstApart(a, b);
    }
  }

  lemma FirstApart(a: seq<Step>, b: seq<Step>)
    requires a != []
    ensures a + b == [a[0]] + (a[1..] + b) && a == [a[0]] + a[1..]
  {
  }

  lemma RunOne(s: State, e: Step)
    requires Inv(s)
    ensures Run(s, [e]) == Next(s, e)
  {
    NextKeepsInv(s, e);
    assert [e][1..] == [];
    assert Run(Next(s, e), []) == Next(s, e);
  }

  /** What a stretch of byte copies by the writer leaves alone. */
  ghost predicate WriterOnly(s: State, t: State)
  {
    && t.rd == s.rd && t.reader == s.reader && t.seen == s.seen && |t.buf| == |s.buf|
  }

  lemma {:induction false} StoresAll(s: State, k: nat)
    requires Inv(s) && s.writer.Storing? && s.writer.run - s.writer.done == k
    ensures var t := Run(s, Times(StoreByte, k));
            && WriterOnly(s, t) && t.wr == s.wr && t.written == s.written && t.accepted == s.accepted
            && t.writer == Storing(s.writer.mode, s.writer.rest, s.writer.run, s.writer.run)
    decreases k
  {
    if k > 0 {
      NextKeepsInv(s, StoreByte);
      StoresAll(Next(s, StoreByte), k - 1);
      assert Times(StoreByte, k)[1..] == Times(StoreByte, k - 1);
    }
  }

  /** A run of `k` bytes is copied and published. */
  lemma Publishes(s: State, k: nat)
    requires Inv(s) && s.writer.Storing? && s.writer.done == 0 && s.writer.run == k
    ensures var t := Run(s, Times(StoreByte, k) + [StoreWr]);
            && WriterOnly(s, t) && t.written == s.written + s.writer.rest[..k] && t.accepted == s.accepted
            && t.writer == if s.writer.mode == Block && k < |s.writer.rest| then Looking(s.writer.rest[k..]) else Quiet
  {
    StoresAll(s, k);
    RunAppend(s, Times(StoreByte, k), [StoreWr]);
    RunOne(Run(s, Times(StoreByte, k)), StoreWr);
  }

  /** A write call that does not wait publishes all its bytes if they fit, and otherwise none, or the longest prefix
      that does. */
  lemma WriteAlone(s: State, mode: Mode, bytes: seq<char>) returns (n: nat)
    requires Inv(s) && s.writer.Quiet? && mode != Block
    ensures n == if |Contents(s.buf, s.rd, s.wr)| + |bytes| < |s.buf| then |bytes|
                 else if mode == Skip then 0 else |s.buf| - 1 - |Contents(s.buf, s.rd, s.wr)|
    ensures n <= |bytes|
    ensures var t := Run(s, [Start(mode, bytes)] + (Times(StoreByte, n) + [StoreWr]));
            WriterOnly(s, t) && t.writer.Quiet? && t.written == s.written + bytes[..n] && t.accepted == s.accepted + bytes[..n]
  {
    n := Accepted(mode, AvailWriteSpace(|s.buf|, s.rd, s.wr), |bytes|);
    AcceptedFits(mode, AvailWriteSpace(|s.buf|, s.rd, s.wr), |bytes|);
    RunAppend(s, [Start(mode, bytes)], Times(StoreByte, n) + [StoreWr]);
    RunOne(s, Start(mode, bytes));
    Publishes(Next(s, Start(mode, bytes)), n);
    assert bytes[..n][..n] == bytes[..n];
  }

  /** A call that waits begins by telling its caller that all is taken, and publishes in every turn as much as fits
      before the reader or the ring's end: nothing only if the ring is full. It is over when all is out. */
  lemma BlockingTurn(s: State) returns (n: nat)
    requires Inv(s) && s.writer.Looking?
    ensures n <= |s.writer.rest|
    ensures n == 0 <==> s.writer.rest == [] || |Contents(s.buf, s.rd, s.wr)| == |s.buf| - 1
    ensures var t := Run(s, [LookAtRd] + (Times(StoreByte, n) + [StoreWr]));
            && WriterOnly(s, t) && t.written == s.written + s.writer.rest[..n] && t.accepted == s.accepted
            && t.writer == if n < |s.writer.rest| then Looking(s.writer.rest[n..]) else Quiet
  {
    n := Min(Min(AvailWriteSpace(|s.buf|, s.rd, s.wr), |s.buf| - s.wr), |s.writer.rest|);
    RunAppend(s, [LookAtRd], Times(StoreByte, n) + [StoreWr]);
    RunOne(s, LookAtRd);
    NextKeepsInv(s, LookAtRd);
    Publishes(Next(s, LookAtRd), n);
  }

  lemma BlockingStarts(s: State, bytes: seq<char>)
    requires Inv(s) && s.writer.Quiet?
    ensures Next(s, Start(Block, bytes)) == s.(writer := Looking(bytes), accepted := s.accepted + bytes)
  {
  }

  lemma {:induction false} FetchesAll(s: State, k: nat)
    requires Inv(s) && s.reader.Fetching? && s.reader.want - |s.reader.got| == k
    ensures var t := Run(s, Times(FetchByte, k));
            && t == s.(reader := t.reader) && t.reader.Fetching? && t.reader.want == |t.reader.got| == s.reader.want
    decreases k
  {
    if k > 0 {
      NextKeepsInv(s, FetchByte);
      FetchesAll(Next(s, FetchByte), k - 1);
      assert Times(FetchByte, k)[1..] == Times(FetchByte, k - 1);
    } else {
      assert s.(reader := s.reader) == s;
    }
  }

  /** A read call takes the longest prefix of the published bytes that fits its buffer, and frees their slots. */
  lemma ReadAlone(s: State, cap: nat) returns (n: nat)
    requires Inv(s) && s.reader.Resting?
    ensures var shown := Contents(s.buf, s.rd, s.wr);
            && n == (if |shown| <= cap then |shown| else cap)
            && var t := Run(s, [LookAtWr(cap)] + (Times(FetchByte, n) + [StoreRd]));
               && t.reader.Resting? && t.seen == s.seen + shown[..n] && t.written == s.written && t.writer == s.writer
               && t.buf == s.buf && t.wr == s.wr && Contents(t.buf, t.rd, t.wr) == shown[n..]
  {
    var shown := Contents(s.buf, s.rd, s.wr);
    n := Min(cap, |shown|);
    var m := Next(s, LookAtWr(cap));
    RunAppend(s, [LookAtWr(cap)], Times(FetchByte, n) + [StoreRd]);
    RunOne(s, LookAtWr(cap));
    NextKeepsInv(s, LookAtWr(cap));
    FetchesAll(m, n);
    RunAppend(m, Times(FetchByte, n), [StoreRd]);
    var u := Run(m, Times(FetchByte, n));
    RunOne(u, StoreRd);
    assert u.reader.got == shown[..n];
    Consume(s.buf, s.rd, s.wr, n);
  }
}
