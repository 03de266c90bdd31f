/** JPEG framing over TCP: the board's frame check and sender, the PC's stream splitter, and
    the proof that the two undo each other under every chunking of the byte stream.
    Markers are the SOI and EOI codes of ITU-T T.81, section B.1.1.3. */
module JpegFraming {

  newtype byte = x: int | 0 <= x < 256

  const MARK: byte := 0xFF
  const SOI: byte := 0xD8
  const EOI: byte := 0xD9
  const MIN_FRAME := 100

  /** What one call of the splitter yields: the finished frames and the bytes to keep. */
  datatype Outcome = Outcome(frames: seq<seq<byte>>, remain: seq<byte>)

  predicate MarkerAt(buf: seq<byte>, code: byte, i: int)
  {
    0 <= i && i + 1 < |buf| && buf[i] == MARK && buf[i + 1] == code
  }

  /** A marker is the two bytes 0xFF and its code, wherever two bytes are left. */
  lemma MarkerMeans(buf: seq<byte>, code: byte, i: nat)
    ensures MarkerAt(buf, code, i) <==> i + 2 <= |buf| && buf[i..i + 2] == [0xFF, code]
  {
    if i + 2 <= |buf| {
      assert buf[i..i + 2][0] == buf[i] && buf[i..i + 2][1] == buf[i + 1];
    }
  }

  /** The index of the first marker at or after `from`, or -1: what the library's byte search returns. */
  function FindMarker(buf: seq<byte>, code: byte, from: nat): (r: int)
    requires from <= |buf|
    ensures r == -1 || (from <= r && MarkerAt(buf, code, r))
    ensures forall i :: from <= i && MarkerAt(buf, code, i) ==> 0 <= r <= i
    decreases |buf| - from
  {
    if from + 1 >= |buf| then -1
    else if MarkerAt(buf, code, from) then from
    else FindMarker(buf, code, from + 1)
  }

  /** What a search from the start finds: no frame head, a head without a tail, or a whole frame. */
  datatype Cut = NoHead | NoTail(soi: nat) | Whole(soi: nat, end: nat)

  function CutOf(buf: seq<byte>): (c: Cut)
    ensures c.NoTail? ==> c.soi < |buf|
    ensures c.Whole? ==> c.soi + 4 <= c.end <= |buf|
  {
    var soi := FindMarker(buf, SOI, 0);
    if soi < 0 then NoHead
    else
      var eoi := FindMarker(buf, EOI, soi + 2);
      if eoi < 0 then NoTail(soi) else Whole(soi, eoi + 2)
  }

  /** The splitter as a recursive function: the reference the loop below is proved against. */
  function Split(buf: seq<byte>): Outcome
    decreases |buf|
  {
    match CutOf(buf)
    case NoHead => Outcome([], buf)
    case NoTail(soi) => Outcome([], buf[soi..])
    case Whole(soi, end) =>
      var rest := Split(buf[end..]);
      Prepend([buf[soi..end]], rest)
  }

  lemma FindMarkerShift(buf: seq<byte>, code: byte, start: nat, from: nat)
    requires start <= from <= |buf|
    ensures FindMarker(buf, code, from) ==
            var r := FindMarker(buf[start..], code, from - start); if r < 0 then -1 else r + start
  {
    var r := FindMarker(buf[start..], code, from - start);
    var q := FindMarker(buf, code, from);
    if r >= 0 {
      assert MarkerAt(buf, code, r + start);
    }
    if q >= 0 {
      assert MarkerAt(buf[start..], code, q - start);
    }
  }

  lemma FindMarkerPrefix(a: seq<byte>, b: seq<byte>, code: byte, from: nat)
    requires from <= |a|
    requires FindMarker(a, code, from) >= 0
    ensures FindMarker(a + b, code, from) == FindMarker(a, code, from)
  {
    var r := FindMarker(a, code, from);
    var q := FindMarker(a + b, code, from);
    assert MarkerAt(a + b, code, r);
    assert MarkerAt(a, code, q);
  }

  /** The loop body's two searches from `start` are the cut of what is left. */
  lemma CutFrom(buf: seq<byte>, start: nat)
    requires start <= |buf|
    ensures var soi := FindMarker(buf, SOI, start);
            CutOf(buf[start..]) ==
            if soi < 0 then NoHead
            else
              var eoi := FindMarker(buf, EOI, soi + 2);
              if eoi < 0 then NoTail(soi - start) else Whole(soi - start, eoi + 2 - start)
  {
    FindMarkerShift(buf, SOI, start, start);
    var soi := FindMarker(buf, SOI, start);
    if soi >= 0 {
      FindMarkerShift(buf, EOI, start, soi + 2);
    }
  }

  lemma CutAppend(a: seq<byte>, b: seq<byte>)
    ensures CutOf(a).Whole? ==> CutOf(a + b) == CutOf(a)
  {
    if CutOf(a).Whole? {
      FindMarkerPrefix(a, b, SOI, 0);
      FindMarkerPrefix(a, b, EOI, CutOf(a).soi + 2);
    }
  }

  /** Dropping what stands before the frame head moves the cut and nothing else. */
  lemma CutDrop(a: seq<byte>, b: seq<byte>)
    requires CutOf(a).NoTail?
    ensures var soi := CutOf(a).soi;
            match CutOf(a[soi..] + b)
            case NoHead => false
            case NoTail(s) => s == 0 && CutOf(a + b) == NoTail(soi)
            case Whole(s, end) => s == 0 && CutOf(a + b) == Whole(soi, soi + end)
  {
    var soi := CutOf(a).soi;
    FindMarkerPrefix(a, b, SOI, 0);
    CutFrom(a + b, soi);
    assert (a + b)[soi..] == a[soi..] + b;
    assert MarkerAt(a + b, SOI, soi);
  }

  /** What one turn of the splitter's loop does, said of the bytes still to be split. */
  lemma SplitStep(buf: seq<byte>, start: nat)
    requires start <= |buf|
    ensures var soi := FindMarker(buf, SOI, start);
            Split(buf[start..]) ==
            if soi < 0 then Outcome([], buf[start..])
            else
              var eoi := FindMarker(buf, EOI, soi + 2);
              if eoi < 0 then Outcome([], buf[soi..])
              else Prepend([buf[soi..eoi + 2]], Split(buf[eoi + 2..]))
  {
    CutFrom(buf, start);
    match CutOf(buf[start..]) {
      case NoHead =>
      case NoTail(soi) =>
        DropDrop(buf, start, soi);
      case Whole(soi, end) =>
        DropDrop(buf, start, end);
        SliceDrop(buf, start, soi, end);
    }
  }

  /** The splitter as the receiver runs it: one pass with a moving start index. */
  method SplitJpeg(buf: seq<byte>) returns (frames: seq<seq<byte>>, remain: seq<byte>)
    ensures Outcome(frames, remain) == Split(buf)
  {
    frames := [];
    var start := 0;
    assert buf[0..] == buf;
    while true
      invariant 0 <= start <= |buf|
      invariant Split(buf) == Prepend(frames, Split(buf[start..]))
      decreases |buf| - start
    {
      SplitStep(buf, start);
      var soi := FindMarker(buf, SOI, start);
      if soi < 0 {
        PrependToNothing(frames, buf[start..]);
        return frames, buf[start..];
      }
      var eoi := FindMarker(buf, EOI, soi + 2);
      if eoi < 0 {
        PrependToNothing(frames, buf[soi..]);
        return frames, buf[soi..];
      }
      var frame := buf[soi..eoi + 2];
      PrependPrepend(frames, [frame], Split(buf[eoi + 2..]));
      frames := frames + [frame];
      start := eoi + 2;
    }
  }

  function Prepend(frames: seq<seq<byte>>, o: Outcome): Outcome
  {
    Outcome(frames + o.frames, o.remain)
  }

  lemma PrependToNothing(frames: seq<seq<byte>>, kept: seq<byte>)
    ensures Prepend(frames, Outcome([], kept)) == Outcome(frames, kept)
  {
    assert frames + [] == frames;
  }

  lemma DropDrop<T>(s: seq<T>, m: nat, n: nat)
    requires m + n <= |s|
    ensures s[m..][n..] == s[m + n..]
  {
  }

  lemma SliceDrop<T>(s: seq<T>, m: nat, i: nat, j: nat)
    requires m + j <= |s| && i <= j
    ensures s[m..][i..j] == s[m + i..m + j]
  {
  }

  /** Splitting may be interrupted anywhere: for all byte strings, splitting `a`, keeping the remainder
      and splitting again once `b` has arrived is the same as splitting `a + b` at once. */
  lemma {:induction false} SplitAppend(a: seq<byte>, b: seq<byte>)
    ensures Split(a + b) == Prepend(Split(a).frames, Split(Split(a).remain + b))
    decreases |a|
  {
    var c := CutOf(a);
    if c.NoTail? {
      SplitCutDrop(a, b);
    } else if c.Whole? {
      var head, tail := [a[c.soi..c.end]], a[c.end..];
      SplitAppend(tail, b);
      SplitWholeAppend(a, b);
      PrependPrepend(head, Split(tail).frames, Split(Split(tail).remain + b));
    }
  }

  lemma SplitWholeAppend(a: seq<byte>, b: seq<byte>)
    requires CutOf(a).Whole?
    ensures Split(a + b) == Prepend([a[CutOf(a).soi..CutOf(a).end]], Split(a[CutOf(a).end..] + b))
  {
    CutAppend(a, b);
    var soi, end := CutOf(a).soi, CutOf(a).end;
    assert (a + b)[end..] == a[end..] + b;
    assert (a + b)[soi..end] == a[soi..end];
  }

  lemma PrependPrepend(p: seq<seq<byte>>, q: seq<seq<byte>>, o: Outcome)
    ensures Prepend(p, Prepend(q, o)) == Prepend(p + q, o)
  {
    assert p + (q + o.frames) == p + q + o.frames;
  }

  lemma SplitCutDrop(a: seq<byte>, b: seq<byte>)
    requires CutOf(a).NoTail?
    ensures Split(a + b) == Split(a[CutOf(a).soi..] + b)
  {
    var soi := CutOf(a).soi;
    var x, y := a + b, a[soi..] + b;
    CutDrop(a, b);
    assert x[soi..] == y;
    match CutOf(y) {
      case NoHead =>
      case NoTail(s) =>
      case Whole(s, end) =>
        SliceDrop(x, soi, 0, end);
        DropDrop(x, soi, end);
    }
  }

  // ---- the receiver: one splitter call per received chunk ----

  function Concat(parts: seq<seq<byte>>): seq<byte>
  {
    if parts == [] then [] else parts[0] + Concat(parts[1..])
  }

  /** The receiver's loop from a given remainder: all frames saved, and what is still buffered. */
  function Receive(kept: seq<byte>, chunks: seq<seq<byte>>): Outcome
    decreases |chunks|
  {
    if chunks == [] then Outcome([], kept)
    else
      var now := Split(kept + chunks[0]);
      var later := Receive(now.remain, chunks[1..]);
      Outcome(now.frames + later.frames, later.remain)
  }

  lemma ReceiveStep(kept: seq<byte>, chunks: seq<seq<byte>>, n: nat, saved: seq<seq<byte>>)
    requires n < |chunks|
    ensures var now, all := Split(kept + chunks[n]), Receive(kept, chunks[n..]);
            var later := Receive(now.remain, chunks[n + 1..]);
            saved + all.frames == (saved + now.frames) + later.frames && all.remain == later.remain
  {
    var rest := chunks[n..];
    assert rest[0] == chunks[n] && rest[1..] == chunks[n + 1..];
    var now := Split(kept + chunks[n]);
    JoinFrames(saved, now.frames, Receive(now.remain, chunks[n + 1..]).frames);
  }

  lemma JoinFrames(a: seq<seq<byte>>, b: seq<seq<byte>>, c: seq<seq<byte>>)
    ensures a + (b + c) == (a + b) + c
  {
  }

  /** The receive loop: appends each chunk to the buffer, splits, saves the frames, keeps the rest. */
  method ReceiveLoop(chunks: seq<seq<byte>>) returns (saved: seq<seq<byte>>, buf: seq<byte>)
    ensures Outcome(saved, buf) == Receive([], chunks)
  {
    saved, buf := [], [];
    for n := 0 to |chunks|
      invariant Receive([], chunks).frames == saved + Receive(buf, chunks[n..]).frames
      invariant Receive([], chunks).remain == Receive(buf, chunks[n..]).remain
    {
      ReceiveStep(buf, chunks, n, saved);
      var frames;
      frames, buf := SplitJpeg(buf + chunks[n]);
      saved := saved + frames;
    }
    assert chunks[|chunks|..] == [];
  }

  /** How the stream was cut into chunks cannot be seen in what is saved (a settled buffer is one that
      splitting leaves alone: the empty buffer, and every remainder the splitter returns). */
  lemma {:induction false} ChunkingIsInvisible(kept: seq<byte>, chunks: seq<seq<byte>>)
    requires Split(kept) == Outcome([], kept)
    ensures Receive(kept, chunks) == Split(kept + Concat(chunks))
    decreases |chunks|
  {
    if chunks == [] {
      assert kept + Concat(chunks) == kept;
    } else {
      var first, rest := kept + chunks[0], chunks[1..];
      ConcatHead(kept, chunks);
      RemainderIsSettled(first);
      ChunkingIsInvisible(Split(first).remain, rest);
      SplitAppend(first, Concat(rest));
    }
  }

  lemma ConcatHead(kept: seq<byte>, chunks: seq<seq<byte>>)
    requires chunks != []
    ensures kept + Concat(chunks) == (kept + chunks[0]) + Concat(chunks[1..])
  {
    Assoc(kept, chunks[0], Concat(chunks[1..]));
  }

  lemma {:induction false} RemainderIsSettled(buf: seq<byte>)
    ensures Split(Split(buf).remain) == Outcome([], Split(buf).remain)
    decreases |buf|
  {
    match CutOf(buf) {
      case NoHead =>
      case NoTail(soi) =>
        SplitCutDrop(buf, []);
        assert buf + [] == buf && buf[soi..] + [] == buf[soi..];
      case Whole(soi, end) =>
        RemainderIsSettled(buf[end..]);
    }
  }

  // ---- the board: frame length, validity check, sending ----

  /** Length of the frame in a capture buffer: just past the first EOI marker, or 0. */
  method JpegFrameLength(buf: seq<byte>, maxLen: nat) returns (len: nat)
    requires maxLen <= |buf|
    ensures len == 0 <==> forall i :: !MarkerAt(buf[..maxLen], EOI, i)
    ensures len > 0 ==> 2 <= len && MarkerAt(buf[..maxLen], EOI, len - 2)
    ensures len > 0 ==> forall i :: MarkerAt(buf[..maxLen], EOI, i) ==> len - 2 <= i
    ensures len > 0 ==> 2 <= len <= maxLen && buf[len - 2] == 0xFF && buf[len - 1] == 0xD9
    ensures forall i :: 0 <= i && i + 1 < (if len > 0 then len - 1 else maxLen) ==> !(buf[i] == 0xFF && buf[i + 1] == 0xD9)
  {
    var i := 0;
    while i + 1 < maxLen
      invariant forall j :: MarkerAt(buf[..maxLen], EOI, j) ==> i <= j
      invariant i == 0 || i < maxLen
      invariant forall j :: 0 <= j < i ==> !(buf[j] == 0xFF && buf[j + 1] == 0xD9)
    {
      if buf[i] == MARK && buf[i + 1] == EOI {
        assert MarkerAt(buf[..maxLen], EOI, i);
        return i + 2;
      }
      assert !MarkerAt(buf[..maxLen], EOI, i);
      i := i + 1;
    }
    return 0;
  }

  /** What makes a byte string a frame the board sends: long enough, SOI first, EOI last and only there. */
  ghost predicate IsFrame(f: seq<byte>)
  {
    && MIN_FRAME <= |f|
    && MarkerAt(f, SOI, 0)
    && MarkerAt(f, EOI, |f| - 2)
    && forall i :: MarkerAt(f, EOI, i) ==> |f| - 2 <= i
  }

  /** A frame is at least 100 bytes, begins with 0xFF 0xD8, ends with 0xFF 0xD9, and has those two nowhere else. */
  lemma FrameMeans(f: seq<byte>)
    ensures IsFrame(f) <==>
            && |f| >= 100 && f[..2] == [0xFF, 0xD8] && f[|f| - 2..] == [0xFF, 0xD9]
            && forall i :: 0 <= i < |f| - 2 ==> !(f[i] == 0xFF && f[i + 1] == 0xD9)
  {
    if |f| >= 100 {
      MarkerMeans(f, SOI, 0);
      MarkerMeans(f, EOI, |f| - 2);
      assert f[0..2] == f[..2] && f[|f| - 2..|f|] == f[|f| - 2..];
      forall i | 0 <= i < |f| - 2
        ensures MarkerAt(f, EOI, i) <==> f[i] == 0xFF && f[i + 1] == 0xD9
      {
      }
    }
  }

  /** The frame a capture buffer starts with, or nothing: [] exactly when no prefix of it is a frame. */
  ghost function FrameIn(buf: seq<byte>): (f: seq<byte>)
    ensures f == [] ==> forall n :: 0 <= n <= |buf| ==> !IsFrame(buf[..n])
    ensures f != [] ==> IsFrame(f) && f <= buf
  {
    if n :| 0 <= n <= |buf| && IsFrame(buf[..n]) then buf[..n] else []
  }

  /** At most one prefix of a capture is a frame, so FrameIn does not choose. */
  lemma FrameIsUnique(buf: seq<byte>, m: nat, n: nat)
    requires m <= |buf| && n <= |buf| && IsFrame(buf[..m]) && IsFrame(buf[..n])
    ensures m == n
  {
    assert MarkerAt(buf, EOI, m - 2) && MarkerAt(buf, EOI, n - 2);
    if m < n {
      assert MarkerAt(buf[..n], EOI, m - 2);
    } else if n < m {
      assert MarkerAt(buf[..m], EOI, n - 2);
    }
  }

  ghost function SentFrames(captures: seq<seq<byte>>): seq<seq<byte>>
  {
    if captures == [] then []
    else (if FrameIn(captures[0]) == [] then [] else [FrameIn(captures[0])]) + SentFrames(captures[1..])
  }

  /** One turn of the streaming loop: the capture's frame goes out, or nothing if the check rejects it. */
  method SendCapture(buf: seq<byte>) returns (frame: seq<byte>)
    ensures frame == FrameIn(buf)
  {
    var len := JpegFrameLength(buf, |buf|);
    assert buf[..|buf|] == buf;
    if len < MIN_FRAME || buf[0] != MARK || buf[1] != SOI {
      forall n | 0 <= n <= |buf|
        ensures !IsFrame(buf[..n])
      {
        if IsFrame(buf[..n]) {
          assert MarkerAt(buf, EOI, n - 2);
          if 0 < len < n {
            assert MarkerAt(buf[..n], EOI, len - 2);
          }
          assert false;
        }
      }
      return [];
    }
    forall i | MarkerAt(buf[..len], EOI, i)
      ensures len - 2 <= i
    {
      assert MarkerAt(buf, EOI, i);
    }
    assert MarkerAt(buf[..len], EOI, len - 2);
    assert MarkerAt(buf[..len], SOI, 0);
    assert IsFrame(buf[..len]);
    FrameIsUnique(buf, len, |FrameIn(buf)|);
    return buf[..len];
  }

  lemma {:induction false} ConcatSnoc(parts: seq<seq<byte>>, last: seq<byte>)
    ensures Concat(parts + [last]) == Concat(parts) + last
  {
    if parts == [] {
      assert parts + [last] == [last];
    } else {
      ConcatSnoc(parts[1..], last);
      assert (parts + [last])[1..] == parts[1..] + [last];
    }
  }

  lemma SentStep(captures: seq<seq<byte>>, n: nat, frames: seq<seq<byte>>)
    requires n < |captures|
    ensures var frame, later := FrameIn(captures[n]), SentFrames(captures[n + 1..]);
            frames + SentFrames(captures[n..]) == (if frame == [] then frames else frames + [frame]) + later
  {
    var rest := captures[n..];
    assert rest[0] == captures[n] && rest[1..] == captures[n + 1..];
    var frame := FrameIn(captures[n]);
    JoinFrames(frames, if frame == [] then [] else [frame], SentFrames(captures[n + 1..]));
    assert frames + [] == frames;
  }

  /** The streaming loop over successful captures, every write accepted whole: the bytes put on the wire. */
  method StreamLoop(captures: seq<seq<byte>>) returns (wire: seq<byte>)
    ensures wire == Concat(SentFrames(captures))
  {
    wire := [];
    ghost var frames := [];
    for n := 0 to |captures|
      invariant SentFrames(captures) == frames + SentFrames(captures[n..])
      invariant wire == Concat(frames)
    {
      SentStep(captures, n, frames);
      var frame := SendCapture(captures[n]);
      if frame != [] {
        ConcatSnoc(frames, frame);
        frames := frames + [frame];
      }
      wire := wire + frame;
    }
    assert captures[|captures|..] == [];
    assert SentFrames(captures) == frames;
  }

  // ---- end to end ----

  /** A frame followed by anything is cut off whole. */
  lemma SplitFrame(f: seq<byte>, rest: seq<byte>)
    requires IsFrame(f)
    ensures Split(f + rest) == Outcome([f] + Split(rest).frames, Split(rest).remain)
  {
    assert MarkerAt(f, EOI, FindMarker(f, EOI, 2));
    assert CutOf(f) == Whole(0, |f|);
    CutAppend(f, rest);
    assert (f + rest)[0..|f|] == f;
    assert (f + rest)[|f|..] == rest;
  }

  /** A proper prefix of a frame is kept whole, waiting for the rest. */
  lemma SplitPartialFrame(f: seq<byte>, n: nat)
    requires IsFrame(f) && n < |f|
    ensures Split(f[..n]) == Outcome([], f[..n])
  {
    var p := f[..n];
    if n >= 2 {
      assert MarkerAt(p, SOI, 0);
      var eoi := FindMarker(p, EOI, 2);
      if eoi >= 0 {
        assert MarkerAt(f, EOI, eoi);
      }
    }
  }

  /** After any number of bytes of a stream of frames, the receiver holds exactly the frames that are
      complete, in order, plus the beginning of the next one. */
  lemma {:induction false} PrefixDelivery(frames: seq<seq<byte>>, n: nat) returns (k: nat)
    requires forall i :: 0 <= i < |frames| ==> IsFrame(frames[i])
    requires n <= |Concat(frames)|
    ensures k <= |frames|
    ensures Split(Concat(frames)[..n]).frames == frames[..k]
    ensures Concat(frames[..k]) + Split(Concat(frames)[..n]).remain == Concat(frames)[..n]
    ensures if k == |frames| then Split(Concat(frames)[..n]).remain == []
            else |Split(Concat(frames)[..n]).remain| < |frames[k]|
  {
    if frames == [] {
      return 0;
    }
    var f, tail := frames[0], Concat(frames[1..]);
    if n < |f| {
      assert (f + tail)[..n] == f[..n];
      SplitPartialFrame(f, n);
      return 0;
    }
    var m := n - |f|;
    assert (f + tail)[..n] == f + tail[..m];
    SplitFrame(f, tail[..m]);
    k := PrefixDelivery(frames[1..], m);
    ConcatTake(frames, k);
    Assoc(f, Concat(frames[1..][..k]), Split(tail[..m]).remain);
    k := k + 1;
  }

  lemma Assoc(a: seq<byte>, b: seq<byte>, c: seq<byte>)
    ensures a + (b + c) == a + b + c
  {
  }

  lemma ConcatTake(parts: seq<seq<byte>>, k: nat)
    requires k < |parts|
    ensures parts[..k + 1] == [parts[0]] + parts[1..][..k]
    ensures Concat(parts[..k + 1]) == parts[0] + Concat(parts[1..][..k])
  {
    assert parts[..k + 1][1..] == parts[1..][..k];
  }

  /** The framing round trip: whatever the captures and however TCP cuts the stream, the receiver saves
      exactly the frames the board accepted, in order, and is left with an empty buffer. */
  lemma RoundTrip(captures: seq<seq<byte>>, chunks: seq<seq<byte>>)
    requires Concat(chunks) == Concat(SentFrames(captures))
    ensures Receive([], chunks) == Outcome(SentFrames(captures), [])
  {
    var frames := SentFrames(captures);
    SentAreFrames(captures);
    ChunkingIsInvisible([], chunks);
    SplitAll(frames);
    assert [] + Concat(chunks) == Concat(frames);
  }

  lemma {:induction false} SentAreFrames(captures: seq<seq<byte>>)
    ensures forall i :: 0 <= i < |SentFrames(captures)| ==> IsFrame(SentFrames(captures)[i])
  {
    if captures != [] {
      SentAreFrames(captures[1..]);
    }
  }

  lemma {:induction false} SplitAll(frames: seq<seq<byte>>)
    requires forall i :: 0 <= i < |frames| ==> IsFrame(frames[i])
    ensures Split(Concat(frames)) == Outcome(frames, [])
  {
    if frames != [] {
      SplitFrame(frames[0], Concat(frames[1..]));
      SplitAll(frames[1..]);
    }
  }
}
