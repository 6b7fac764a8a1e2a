/** sendChallenge and recChallenge: each end's actions are a run of its
    automaton, and its result says whether the run was completed. */
module Parties {
  import opened Bytes
  import opened Channel
  import opened Framing
  import opened Reception
  import opened Transmission
  import opened Protocol
  import opened Outcomes
  import opened Memory
  import opened Challenge

  predicate Active(p: Portion) {
    p.data.Block? && p.len > 0
  }

  /** The contents of the active portions lo..hi. */
  ghost function PortionFrames(ps: seq<Portion>, blocks: Blocks, lo: nat, hi: nat): seq<seq<byte>>
    requires lo <= hi <= |ps| && Owned(ps, blocks)
    decreases hi
  {
    if lo == hi then []
    else PortionFrames(ps, blocks, lo, hi - 1) + if Active(ps[hi - 1]) then [blocks[ps[hi - 1].data.addr]] else []
  }

  /** The frames of a record: its function id, then its active portions. */
  ghost function FramesOf(func: uint32, ps: seq<Portion>, blocks: Blocks): seq<seq<byte>>
    requires Owned(ps, blocks)
  {
    [LE32(func)] + PortionFrames(ps, blocks, 0, |ps|)
  }

  lemma {:induction false} SplitFrames(ps: seq<Portion>, blocks: Blocks, lo: nat, mid: nat, hi: nat)
    requires lo <= mid <= hi <= |ps| && Owned(ps, blocks)
    ensures PortionFrames(ps, blocks, lo, hi) == PortionFrames(ps, blocks, lo, mid) + PortionFrames(ps, blocks, mid, hi)
    decreases hi
  {
    if mid < hi {
      SplitFrames(ps, blocks, lo, mid, hi - 1);
    }
  }

  lemma {:induction false} SameFrames(ps: seq<Portion>, b: Blocks, b': Blocks, lo: nat, hi: nat)
    requires lo <= hi <= |ps| && Owned(ps, b) && Owned(ps, b')
    requires forall i | lo <= i < hi && ps[i].data.Block? :: b[ps[i].data.addr] == b'[ps[i].data.addr]
    ensures PortionFrames(ps, b, lo, hi) == PortionFrames(ps, b', lo, hi)
    decreases hi
  {
    if lo < hi {
      SameFrames(ps, b, b', lo, hi - 1);
    }
  }

  lemma {:induction false} FrameLengths(ps: seq<Portion>, blocks: Blocks, lo: nat, hi: nat)
    requires lo <= hi <= |ps| && Owned(ps, blocks)
    ensures forall i | 0 <= i < |PortionFrames(ps, blocks, lo, hi)| ::
            1 <= |PortionFrames(ps, blocks, lo, hi)[i]| <= 255
    decreases hi
  {
    if lo < hi {
      FrameLengths(ps, blocks, lo, hi - 1);
    }
  }

  /** The first frame of a record is its id, lowest byte first. */
  lemma IdBytes(func: uint32, ps: seq<Portion>, blocks: Blocks)
    requires Owned(ps, blocks)
    ensures var d := FramesOf(func, ps, blocks)[0];
      && |d| == 4 && (forall k: nat | k < 4 :: d[k] == func / Pow256(k) % 256)
      && d[0] == func % 0x100 && d[1] == func / 0x100 % 0x100
      && d[2] == func / 0x1_0000 % 0x100 && d[3] == func / 0x100_0000
      && func == Number(d[0], d[1], d[2], d[3])
      && Wire(d) == [0x55, 0x55, 0x55, 0x55, d[0], d[1], d[2], d[3], 0xFF, 0xFF, 0xFF, 0xFF]
  {
    var d := LE32(func);
    Bytes32(func);
    RoundTrip32(func);
    Value32(d);
    forall k: nat | k < 4
      ensures d[k] == func / Pow256(k) % 256
    {
      ByteOfLE(func, 4, k);
    }
    assert d == [d[0], d[1], d[2], d[3]];
  }

  /** The same portions are active, with the same lengths. */
  predicate SameShape(ps: seq<Portion>, qs: seq<Portion>) {
    |ps| == |qs| && forall i | 0 <= i < |ps| ::
        (Active(ps[i]) <==> Active(qs[i])) && (Active(ps[i]) ==> ps[i].len == qs[i].len)
  }

  lemma {:induction false} SameLengths(ps: seq<Portion>, qs: seq<Portion>, b: Blocks, c: Blocks, n: nat)
    requires SameShape(ps, qs) && Owned(ps, b) && Owned(qs, c) && n <= |ps|
    ensures Lengths(PortionFrames(ps, b, 0, n)) == Lengths(PortionFrames(qs, c, 0, n))
  {
    if n > 0 {
      SameLengths(ps, qs, b, c, n - 1);
      assert Active(ps[n - 1]) <==> Active(qs[n - 1]);
    }
  }

  lemma AlwaysSendable(func: uint32, ps: seq<Portion>, blocks: Blocks)
    requires Owned(ps, blocks)
    ensures Sendable(FramesOf(func, ps, blocks))
  {
    FrameLengths(ps, blocks, 0, |ps|);
  }

  // ---------------------------------------------------------------- the sender's actions

  function Acked(frames: seq<seq<byte>>, i: nat): Tx {
    Tx(if i == |frames| then TxDone else Sending(0), i)
  }

  /** The bytes k.. of frame i are written. */
  lemma {:induction false} TxWrites(frames: seq<seq<byte>>, log: seq<Act>, mid: nat, hi: nat, i: nat, k: nat)
    requires mid <= hi <= |log| && i < |frames| && k < |frames[i]| + 8 && k + (hi - mid) <= |frames[i]| + 8
    requires forall x | mid <= x < hi :: log[x] == Wr(Wire(frames[i])[k + (x - mid)])
    ensures var n := k + (hi - mid);
      TxRun(frames, Tx(Sending(k), i), log, mid, hi) == Tx(if n == |frames[i]| + 8 then Awaiting([]) else Sending(n), i)
    decreases hi - mid
  {
    if mid < hi {
      assert log[mid] == Wr(Wire(frames[i])[k]);
      if k + 1 < |frames[i]| + 8 {
        TxWrites(frames, log, mid + 1, hi, i, k + 1);
      }
    }
  }

  /** The acknowledgement is read: the bytes of d after the first k. */
  lemma {:induction false} TxReads(frames: seq<seq<byte>>, log: seq<Act>, mid: nat, hi: nat, i: nat, d: seq<byte>,
                                   k: nat)
    requires mid <= hi <= |log| && i < |frames| && k <= |d| <= 3 && k < 3
    requires hi - mid == Cost(3, d) - k
    requires forall x | mid <= x < hi :: log[x] == if k + (x - mid) < |d| then Rd(Byte(d[k + (x - mid)])) else Rd(Break)
    ensures TxRun(frames, Tx(Awaiting(d[..k]), i), log, mid, hi)
         == if d == ACK then Acked(frames, i + 1) else Tx(TxFail, i)
    decreases hi - mid
  {
    if k == |d| {
      assert log[mid] == Rd(Break);
    } else {
      assert log[mid] == Rd(Byte(d[k]));
      assert d[..k] + [d[k]] == d[..k + 1];
      if k < 2 {
        TxReads(frames, log, mid + 1, hi, i, d, k + 1);
      } else {
        assert d[..3] == d;
      }
    }
  }

  /** The log entries of an exact read that found d. */
  lemma FoundLog(l0: seq<Act>, log: seq<Act>, ts: seq<Tok>, a: nat, len: nat, d: seq<byte>)
    requires Finds(ts, a, len, d) && LogsReads(l0, log, ts, a, a + Cost(len, d))
    ensures |log| == |l0| + Cost(len, d) && forall i | 0 <= i < |l0| :: l0[i] == log[i]
    ensures forall x | |l0| <= x < |log| ::
              log[x] == if 0 + (x - |l0|) < |d| then Rd(Byte(d[0 + (x - |l0|)])) else Rd(Break)
  {
  }

  /** A frame, written as far as k bytes of it. */
  lemma WirePrefix(data: seq<byte>, k: nat)
    requires k <= |data| + 8
    ensures Wire(data)[..k] == if k <= 4 then START[..k]
                               else if k <= 4 + |data| then START + data[..k - 4]
                               else START + data + STOP[..k - 4 - |data|]
  {
  }

  /** sendFramedStream: three writes, any short one of which ends the call. */
  method SendFramedStream(ch: Channel, data: seq<byte>) returns (ret: int, ghost sent: nat)
    requires ch.Valid()
    modifies ch
    ensures ch.Valid() && ch.pos == old(ch.pos)
    ensures sent <= |data| + 8 && ret == (if sent == |data| + 8 then 0 else 1)
    ensures ch.log == old(ch.log) + Writes(Wire(data)[..sent])
    ensures (sent, ch.outgoing) == FrameWrites(old(ch.outgoing), |data|)
  {
    ghost var log0 := ch.log;
    var n := ch.Write(START);
    sent := if n > 0 then n else 0;
    WirePrefix(data, sent);
    if n != 4 {
      return 1, sent;
    }
    ghost var log1 := ch.log;
    n := ch.Write(data);
    ghost var more := if n > 0 then n else 0;
    LogsMoreWrites(log0, log1, ch.log, START, data[..more]);
    sent := 4 + more;
    WirePrefix(data, sent);
    if n != |data| {
      return 1, sent;
    }
    ghost var log2 := ch.log;
    n := ch.Write(STOP);
    more := if n > 0 then n else 0;
    LogsMoreWrites(log0, log2, ch.log, START + data, STOP[..more]);
    sent := 4 + |data| + more;
    WirePrefix(data, sent);
    ret := if n != 4 then 1 else 0;
  }

  /** A frame of len bytes that began at some place of the schedule e0 stopped
      after k of its bytes, because a write was not taken whole. */
  ghost predicate FrameStopped(e0: seq<WriteEvent>, e1: seq<WriteEvent>, len: nat, k: nat) {
    k < len + 8 && exists e :: SuffixOf(e, e0) && FrameWrites(e, len) == (k, e1)
  }

  /** How a sender that met the schedule from e0 to e1 ends: all frames were
      acknowledged, or an acknowledgement was wrong or missing, or a write of the
      current frame was not taken whole. */
  ghost predicate TxEnded(frames: seq<seq<byte>>, tx: Tx, ret: int, e0: seq<WriteEvent>, e1: seq<WriteEvent>) {
    if ret == 0 then tx.pc.TxDone?
    else
      && tx.i < |frames|
      && (tx.pc.TxFail? || (tx.pc.Sending? && FrameStopped(e0, e1, |frames[tx.i]|, tx.pc.k)))
  }

  lemma FrameStoppedHere(e0: seq<WriteEvent>, e1: seq<WriteEvent>, len: nat, k: nat)
    requires k < len + 8 && FrameWrites(e0, len) == (k, e1)
    ensures FrameStopped(e0, e1, len, k)
  {
    assert SuffixOf(e0, e0);
  }

  lemma TxEndedLater(frames: seq<seq<byte>>, tx: Tx, ret: int, e: seq<WriteEvent>, e0: seq<WriteEvent>,
                     e1: seq<WriteEvent>)
    requires SuffixOf(e, e0) && TxEnded(frames, tx, ret, e, e1)
    ensures TxEnded(frames, tx, ret, e0, e1)
  {
    if ret != 0 && tx.pc.Sending? {
      var w :| SuffixOf(w, e) && FrameWrites(w, |frames[tx.i]|) == (tx.pc.k, e1);
      SuffixTrans(w, e, e0);
    }
  }

  /** One frame, as a run of the sender. */
  method SendFrame(ch: Channel, data: seq<byte>, ghost frames: seq<seq<byte>>, ghost i: nat, ghost lo: nat)
      returns (ret: int)
    requires ch.Valid() && lo <= |ch.log| && i < |frames| && data == frames[i] != []
    requires TxRun(frames, TX_INIT, ch.log, lo, |ch.log|) == Tx(Sending(0), i)
    modifies ch
    ensures ch.Valid() && Grows(old(ch.log), ch.log) && ch.pos == old(ch.pos)
    ensures ret == 0 || ret == 1
    ensures var (k, rest) := FrameWrites(old(ch.outgoing), |data|);
      && ch.outgoing == rest && (ret == 0 <==> k == |data| + 8)
      && TxRun(frames, TX_INIT, ch.log, lo, |ch.log|) == Tx(if ret == 0 then Awaiting([]) else Sending(k), i)
    ensures ret != 0 ==>
              TxEnded(frames, TxRun(frames, TX_INIT, ch.log, lo, |ch.log|), ret, old(ch.outgoing), ch.outgoing)
    ensures SuffixOf(ch.outgoing, old(ch.outgoing))
  {
    ghost var log0, out0, sent := ch.log, ch.outgoing, 0;
    ret, sent := SendFramedStream(ch, data);
    hide FrameStopped, FrameWrites, SuffixOf, TxRun;
    TxWrote(frames, log0, ch.log, lo, i, sent);
    FrameGoesOut(out0, |data|);
    if ret != 0 {
      FrameStoppedHere(out0, ch.outgoing, |data|, sent);
    }
  }

  /** The sender has had frame i - 1 acknowledged; going on from here it stops in
      the given end. */
  ghost predicate SenderAt(frames: seq<seq<byte>>, i: nat, log: seq<Act>, lo: nat, ts: seq<Tok>, pos: nat,
                           evs: seq<WriteEvent>, out0: seq<WriteEvent>, end: After<Tx>) {
    && i <= |frames| && lo <= |log| && SuffixOf(evs, out0)
    && TxRun(frames, TX_INIT, log, lo, |log|) == Acked(frames, i)
    && SenderAfter(frames, i, ts, pos, evs) == end
  }

  /** It has stopped there before the last frame was acknowledged. */
  ghost predicate SenderStops(frames: seq<seq<byte>>, log: seq<Act>, lo: nat, pos: nat,
                              evs: seq<WriteEvent>, out0: seq<WriteEvent>, end: After<Tx>) {
    && lo <= |log| && SuffixOf(evs, out0)
    && end == After(TxRun(frames, TX_INIT, log, lo, |log|), pos, evs)
    && TxEnded(frames, end.st, 1, out0, evs)
  }

  /** One frame and its acknowledgement. */
  method SendAndWait(ch: Channel, data: seq<byte>, ghost frames: seq<seq<byte>>, ghost i: nat, ghost lo: nat,
                     ghost out0: seq<WriteEvent>, ghost end: After<Tx>) returns (ret: int)
    requires ch.Valid() && i < |frames| && data == frames[i] != []
    requires SenderAt(frames, i, ch.log, lo, ch.all, ch.pos, ch.outgoing, out0, end)
    modifies ch
    ensures ch.Valid() && Grows(old(ch.log), ch.log)
    ensures ret == 0 || ret == 1
    ensures ret == 0 ==> SenderAt(frames, i + 1, ch.log, lo, ch.all, ch.pos, ch.outgoing, out0, end)
    ensures ret == 1 ==> SenderStops(frames, ch.log, lo, ch.pos, ch.outgoing, out0, end)
  {
    ghost var out1, pos1 := ch.outgoing, ch.pos;
    SenderStep(frames, i, ch.all, pos1, out1);
    hide FrameStopped, SuffixOf, TxRun, FrameWrites, SenderAfter, Found, TxEnded;
    ret := SendFrame(ch, data, frames, i, lo);
    SuffixTrans(ch.outgoing, out1, out0);
    if ret != 0 {
      TxEndedLater(frames, TxRun(frames, TX_INIT, ch.log, lo, |ch.log|), ret, out1, out0, ch.outgoing);
      return;
    }
    ghost var log1, d := ch.log, [];
    ret, d := WaitForAck(ch);
    FindsUnique(ch.all, pos1, 3, d, Found(ch.all, pos1, 3));
    hide Finds;
    TxHeard(frames, log1, ch.log, lo, i, ch.all, pos1, d);
    if ret != 0 {
      HeardWrong(frames, i, out0, ch.outgoing);
    }
  }

  lemma HeardWrong(frames: seq<seq<byte>>, i: nat, e0: seq<WriteEvent>, e1: seq<WriteEvent>)
    requires i < |frames|
    ensures TxEnded(frames, Tx(TxFail, i), 1, e0, e1)
  {
  }

  lemma TxWrote(frames: seq<seq<byte>>, l0: seq<Act>, log: seq<Act>, lo: nat, i: nat, m: nat)
    requires lo <= |l0| && i < |frames| && m <= |frames[i]| + 8
    requires TxRun(frames, TX_INIT, l0, lo, |l0|) == Tx(Sending(0), i)
    requires log == l0 + Writes(Wire(frames[i])[..m])
    ensures TxRun(frames, TX_INIT, log, lo, |log|) == Tx(if m == |frames[i]| + 8 then Awaiting([]) else Sending(m), i)
  {
    TxSplit(frames, TX_INIT, l0, log, lo, |l0|, |log|);
    TxWrites(frames, log, |l0|, |log|, i, 0);
  }

  lemma TxHeard(frames: seq<seq<byte>>, l0: seq<Act>, log: seq<Act>, lo: nat, i: nat, ts: seq<Tok>, a: nat,
                d: seq<byte>)
    requires lo <= |l0| && i < |frames| && Finds(ts, a, 3, d)
    requires TxRun(frames, TX_INIT, l0, lo, |l0|) == Tx(Awaiting([]), i)
    requires LogsReads(l0, log, ts, a, a + Cost(3, d))
    ensures TxRun(frames, TX_INIT, log, lo, |log|) == if d == ACK then Acked(frames, i + 1) else Tx(TxFail, i)
  {
    FoundLog(l0, log, ts, a, 3, d);
    TxSplit(frames, TX_INIT, l0, log, lo, |l0|, |log|);
    assert d[..0] == [];
    TxReads(frames, log, |l0|, |log|, i, d, 0);
  }

  lemma SenderBegins(frames: seq<seq<byte>>, log: seq<Act>, ts: seq<Tok>, pos: nat, evs: seq<WriteEvent>)
    requires |frames| > 0
    ensures SenderAt(frames, 0, log, |log|, ts, pos, evs, evs, SenderAfter(frames, 0, ts, pos, evs))
  {
  }

  lemma SenderDone(frames: seq<seq<byte>>, log: seq<Act>, lo: nat, ts: seq<Tok>, pos: nat,
                   evs: seq<WriteEvent>, out0: seq<WriteEvent>, end: After<Tx>)
    requires SenderAt(frames, |frames|, log, lo, ts, pos, evs, out0, end)
    ensures end == After(TxRun(frames, TX_INIT, log, lo, |log|), pos, evs) && TxEnded(frames, end.st, 0, out0, evs)
    ensures SuffixOf(evs, out0)
  {
  }

  /** sendChallenge. */
  method SendChallenge(ch: Channel, fc: FuncCall, heap: Heap) returns (ret: int)
    requires ch.Valid() && fc.Valid() && Owned(fc.dataP[..], heap.blocks)
    modifies ch
    ensures ch.Valid() && Grows(old(ch.log), ch.log)
    ensures ret == 0 || ret == 1
    ensures var frames := FramesOf(fc.func, fc.dataP[..], heap.blocks);
      var tx := TxRun(frames, TX_INIT, ch.log, |old(ch.log)|, |ch.log|);
      && TxEnded(frames, tx, ret, old(ch.outgoing), ch.outgoing)
      && After(tx, ch.pos, ch.outgoing) == SenderAfter(frames, 0, ch.all, old(ch.pos), old(ch.outgoing))
    ensures SuffixOf(ch.outgoing, old(ch.outgoing))
  {
    ghost var ps, out0, pos0 := fc.dataP[..], ch.outgoing, ch.pos;
    ghost var frames, lo := FramesOf(fc.func, ps, heap.blocks), |ch.log|;
    ghost var end := SenderAfter(frames, 0, ch.all, pos0, out0);
    SenderBegins(frames, ch.log, ch.all, pos0, out0);
    assert LE32(fc.func) == frames[0];
    assert |frames| == 1 + |PortionFrames(ps, heap.blocks, 0, |ps|)| && |ps| == DATA_PORTIONS;
    assert PortionFrames(ps, heap.blocks, 0, 0) == [];
    hide FrameStopped, SuffixOf, TxRun, SenderAt, SenderAfter, FramesOf, PortionFrames, TxEnded, Owned;
    ret := SendAndWait(ch, LE32(fc.func), frames, 0, lo, out0, end);
    ghost var k := 1;
    if ret != 0 {
      return 1;
    }
    for i := 0 to DATA_PORTIONS
      invariant ch.Valid() && Grows(old(ch.log), ch.log)
      invariant k == 1 + |PortionFrames(ps, heap.blocks, 0, i)|
      invariant SenderAt(frames, k, ch.log, lo, ch.all, ch.pos, ch.outgoing, out0, end)
    {
      NextPortion(ps, heap.blocks, i);
      ret := SendPortion(ch, fc, heap, i, frames, k, lo, out0, end);
      if ret != 0 {
        return 1;
      }
      k := k + if Active(ps[i]) then 1 else 0;
    }
    SenderDone(frames, ch.log, lo, ch.all, ch.pos, ch.outgoing, out0, end);
    return 0;
  }

  lemma NextPortion(ps: seq<Portion>, b0: Blocks, i: nat)
    requires Owned(ps, b0) && i < |ps|
    ensures |PortionFrames(ps, b0, 0, i + 1)| == |PortionFrames(ps, b0, 0, i)| + if Active(ps[i]) then 1 else 0
  {
  }

  /** The body of the portion loop of sendChallenge, with frame number k to come. */
  method SendPortion(ch: Channel, fc: FuncCall, heap: Heap, i: nat, ghost frames: seq<seq<byte>>, ghost k: nat,
                     ghost lo: nat, ghost out0: seq<WriteEvent>, ghost end: After<Tx>) returns (ret: int)
    requires ch.Valid() && fc.Valid() && i < DATA_PORTIONS && Owned(fc.dataP[..], heap.blocks)
    requires frames == FramesOf(fc.func, fc.dataP[..], heap.blocks)
    requires k == 1 + |PortionFrames(fc.dataP[..], heap.blocks, 0, i)|
    requires SenderAt(frames, k, ch.log, lo, ch.all, ch.pos, ch.outgoing, out0, end)
    modifies ch
    ensures ch.Valid() && Grows(old(ch.log), ch.log)
    ensures ret == 0 || ret == 1
    ensures ret == 0 ==>
              var k' := k + if Active(fc.dataP[i]) then 1 else 0;
              SenderAt(frames, k', ch.log, lo, ch.all, ch.pos, ch.outgoing, out0, end)
    ensures ret == 1 ==> SenderStops(frames, ch.log, lo, ch.pos, ch.outgoing, out0, end)
  {
    hide FrameStopped, SuffixOf, TxRun, TxEnded, SenderAt, SenderStops, SenderAfter;
    var p := fc.dataP[i];
    FrameIndex(fc.func, fc.dataP[..], heap.blocks, i, frames);
    ret := 0;
    if p.data.Block? && p.len > 0 {
      var data := heap.blocks[p.data.addr][..p.len];
      assert data == heap.blocks[p.data.addr] == frames[k];
      hide Owned, FramesOf, PortionFrames;
      ret := SendAndWait(ch, data, frames, k, lo, out0, end);
    }
  }

  // ---------------------------------------------------------------- the receiver's actions

  /** A run of the frame automaton is a run of the receiver. */
  lemma {:induction false} RxDrives(lens: seq<nat>, log: seq<Act>, mid: nat, hi: nat, ts: seq<Tok>, a: nat,
                                    st: Rec, acc: seq<seq<byte>>)
    requires mid <= hi <= |log| && |acc| < |lens| && lens[|acc|] <= |st.buf| && st.Ok(lens[|acc|]) && !st.ph.Final()
    requires hi - mid == Drive(st, lens[|acc|], ts, a).n - a
    requires forall x | mid <= x < hi :: log[x] == Rd(At(ts, a + (x - mid)))
    ensures var r := Drive(st, lens[|acc|], ts, a);
      RxRun(lens, Rx(Receiving(st.ph), st.buf, acc), log, mid, hi)
      == Rx(if r.st.ph.Accepted? then Acking(0) else RxFail, r.st.buf, acc)
    decreases hi - mid
  {
    var len := lens[|acc|];
    var st' := Step(st, len, At(ts, a));
    assert Drive(st, len, ts, a) == Drive(st', len, ts, a + 1);
    assert log[mid] == Rd(At(ts, a + (mid - mid)));
    if !st'.ph.Final() {
      RxDrives(lens, log, mid + 1, hi, ts, a + 1, st', acc);
    } else {
      assert hi == mid + 1;
    }
  }

  function AckedRx(lens: seq<nat>, buf: seq<byte>, acc: seq<seq<byte>>): Rx {
    Rx(if |acc| == |lens| then RxDone else Receiving(Hunt([])), buf, acc)
  }

  /** The bytes k.. of the acknowledgement are written. */
  lemma {:induction false} RxWrites(lens: seq<nat>, log: seq<Act>, mid: nat, hi: nat, buf: seq<byte>,
                                    acc: seq<seq<byte>>, k: nat)
    requires mid <= hi <= |log| && k < 3 && k + (hi - mid) <= 3 && |acc| < |lens| && lens[|acc|] <= |buf|
    requires forall x | mid <= x < hi :: log[x] == Wr(ACK[k + (x - mid)])
    ensures RxRun(lens, Rx(Acking(k), buf, acc), log, mid, hi)
         == if k + (hi - mid) < 3 then Rx(Acking(k + (hi - mid)), buf, acc)
             else AckedRx(lens, buf, acc + [buf[..lens[|acc|]]])
    decreases hi - mid
  {
    if mid < hi {
      assert log[mid] == Wr(ACK[k]);
      if k < 2 {
        RxWrites(lens, log, mid + 1, hi, buf, acc, k + 1);
      }
    }
  }

  lemma RxReceived(lens: seq<nat>, buf0: seq<byte>, l0: seq<Act>, log: seq<Act>, lo: nat,
                   ts: seq<Tok>, a: nat, buf: seq<byte>, acc: seq<seq<byte>>)
    requires lo <= |l0| && |acc| < |lens| && lens[|acc|] <= |buf|
    requires RxRun(lens, RxInit(buf0), l0, lo, |l0|) == Rx(Receiving(Hunt([])), buf, acc)
    requires LogsReads(l0, log, ts, a, Drive(Init(buf), lens[|acc|], ts, a).n)
    ensures var r := Drive(Init(buf), lens[|acc|], ts, a);
      RxRun(lens, RxInit(buf0), log, lo, |log|) == Rx(if r.st.ph.Accepted? then Acking(0) else RxFail, r.st.buf, acc)
  {
    RxSplit(lens, RxInit(buf0), l0, log, lo, |l0|, |log|);
    RxDrives(lens, log, |l0|, |log|, ts, a, Init(buf), acc);
  }

  lemma RxWrote(lens: seq<nat>, buf0: seq<byte>, l0: seq<Act>, log: seq<Act>, lo: nat, m: nat,
                buf: seq<byte>, acc: seq<seq<byte>>)
    requires lo <= |l0| && m <= 3 && |acc| < |lens| && lens[|acc|] <= |buf|
    requires RxRun(lens, RxInit(buf0), l0, lo, |l0|) == Rx(Acking(0), buf, acc)
    requires log == l0 + Writes(ACK[..m])
    ensures RxRun(lens, RxInit(buf0), log, lo, |log|)
         == if m < 3 then Rx(Acking(m), buf, acc) else AckedRx(lens, buf, acc + [buf[..lens[|acc|]]])
  {
    RxSplit(lens, RxInit(buf0), l0, log, lo, |l0|, |log|);
    RxWrites(lens, log, |l0|, |log|, buf, acc, 0);
  }

  /** An acknowledgement that began at some place of the schedule e0 stopped
      after k of its bytes. */
  ghost predicate AckStopped(e0: seq<WriteEvent>, e1: seq<WriteEvent>, k: nat) {
    k < 3 && exists e :: SuffixOf(e, e0) && AckWrites(e, 0) == (k, e1)
  }

  /** An acknowledgement stops only at a close or a fatal error. */
  lemma AckStoppedByFailure(e0: seq<WriteEvent>, e1: seq<WriteEvent>, k: nat)
    ensures AckStopped(e0, e1, k) ==> exists i :: 0 <= i < |e0| && Fails(e0[i])
  {
    if AckStopped(e0, e1, k) {
      var e :| SuffixOf(e, e0) && AckWrites(e, 0) == (k, e1);
      AckGoesOut(e, 0);
      var i :| 0 <= i < |e| - |e1| && Fails(e[i]);
      assert e[i] == e0[|e0| - |e| + i];
    }
  }

  /** A frame stops only at an event that does not take the write whole. */
  lemma FrameStoppedByEvent(e0: seq<WriteEvent>, e1: seq<WriteEvent>, len: nat, k: nat)
    requires 0 < len <= 255
    ensures FrameStopped(e0, e1, len, k) ==> exists i :: 0 <= i < |e0| && !Whole(e0[i], 255)
  {
    if FrameStopped(e0, e1, len, k) {
      var e :| SuffixOf(e, e0) && FrameWrites(e, len) == (k, e1);
      FrameGoesOut(e, len);
      var i :| 0 <= i < 3 && i < |e| && !Whole(e[i], 255);
      assert e[i] == e0[|e0| - |e| + i];
    }
  }

  /** How a receiver ends: all frames were accepted and acknowledged, or one was
      not accepted, or an acknowledgement could not be written. */
  ghost predicate RxEnded(rx: Rx, ret: int, e0: seq<WriteEvent>, e1: seq<WriteEvent>) {
    if ret == 0 then rx.pc.RxDone? else rx.pc.RxFail? || (rx.pc.Acking? && AckStopped(e0, e1, rx.pc.sent))
  }

  lemma AckStoppedHere(e0: seq<WriteEvent>, e1: seq<WriteEvent>, k: nat)
    requires k < 3 && AckWrites(e0, 0) == (k, e1)
    ensures AckStopped(e0, e1, k)
  {
    assert SuffixOf(e0, e0);
  }

  lemma RxEndedLater(rx: Rx, ret: int, e: seq<WriteEvent>, e0: seq<WriteEvent>, e1: seq<WriteEvent>)
    requires SuffixOf(e, e0) && RxEnded(rx, ret, e, e1)
    ensures RxEnded(rx, ret, e0, e1)
  {
    if ret != 0 && rx.pc.Acking? {
      var w :| SuffixOf(w, e) && AckWrites(w, 0) == (rx.pc.sent, e1);
      SuffixTrans(w, e, e0);
    }
  }

  /** The receiver has stored acc; going on from here it stops in the given end. */
  ghost predicate ReceiverAt(lens: seq<nat>, buf0: seq<byte>, log: seq<Act>, lo: nat, buf: seq<byte>,
                             acc: seq<seq<byte>>,
                             ts: seq<Tok>, pos: nat, evs: seq<WriteEvent>, out0: seq<WriteEvent>, end: After<Rx>) {
    && lo <= |log| && Fit(lens, buf) && |acc| <= |lens| && SuffixOf(evs, out0)
    && RxRun(lens, RxInit(buf0), log, lo, |log|) == AckedRx(lens, buf, acc)
    && ReceiverAfter(lens, buf, acc, ts, pos, evs) == end
  }

  /** It has stopped there before the last frame was stored. */
  ghost predicate ReceiverStops(lens: seq<nat>, buf0: seq<byte>, log: seq<Act>, lo: nat, acc: seq<seq<byte>>,
                                pos: nat, evs: seq<WriteEvent>, out0: seq<WriteEvent>, end: After<Rx>) {
    && lo <= |log| && SuffixOf(evs, out0)
    && end == After(RxRun(lens, RxInit(buf0), log, lo, |log|), pos, evs)
    && end.st.acc == acc && RxEnded(end.st, 1, out0, evs)
  }

  lemma RejectedEnds(buf: seq<byte>, acc: seq<seq<byte>>, e0: seq<WriteEvent>, e1: seq<WriteEvent>)
    ensures RxEnded(Rx(RxFail, buf, acc), 1, e0, e1)
  {
  }

  /** One frame of the given length, acknowledged when it was accepted. */
  method ReceiveAndAck(ch: Channel, buffer: array<byte>, len: byte, ghost lens: seq<nat>, ghost buf0: seq<byte>,
                       ghost acc: seq<seq<byte>>, ghost lo: nat, ghost out0: seq<WriteEvent>, ghost end: After<Rx>)
    returns (ret: int)
    requires ch.Valid() && buffer.Length == BUF_SIZE && |acc| < |lens| && lens[|acc|] == len
    requires ReceiverAt(lens, buf0, ch.log, lo, buffer[..], acc, ch.all, ch.pos, ch.outgoing, out0, end)
    modifies ch, buffer
    ensures ch.Valid() && Grows(old(ch.log), ch.log)
    ensures ret == 0 || ret == 1
    ensures ret == 0 ==>
              var acc' := acc + [buffer[..len]];
              ReceiverAt(lens, buf0, ch.log, lo, buffer[..], acc', ch.all, ch.pos, ch.outgoing, out0, end)
    ensures ret == 1 ==> ReceiverStops(lens, buf0, ch.log, lo, acc, ch.pos, ch.outgoing, out0, end)
  {
    ghost var log0, pos0, buf, out1 := ch.log, ch.pos, buffer[..], ch.outgoing;
    ReceiverStep(lens, buf, acc, ch.all, pos0, out1);
    hide ReceiverAfter, AckStopped, RxRun, RxEnded, SuffixOf, Drive, AckWrites;
    ret := RecStream(ch, buffer, len);
    RxReceived(lens, buf0, log0, ch.log, lo, ch.all, pos0, buf, acc);
    if ret != 0 {
      RejectedEnds(buffer[..], acc, out0, out1);
      return 1;
    }
    ghost var log1, sent := ch.log, 0;
    ret, sent := SendAck(ch);
    RxWrote(lens, buf0, log1, ch.log, lo, sent, buffer[..], acc);
    SuffixTrans(ch.outgoing, out1, out0);
    if ret != 0 {
      AckStoppedHere(out1, ch.outgoing, sent);
      AckingEnds(sent, buffer[..], acc, out1, out0, ch.outgoing);
    }
    assert buffer[..][..len] == buffer[..len];
  }

  lemma AckingEnds(sent: nat, buf: seq<byte>, acc: seq<seq<byte>>, e: seq<WriteEvent>, e0: seq<WriteEvent>,
                   e1: seq<WriteEvent>)
    requires AckStopped(e, e1, sent) && SuffixOf(e, e0)
    ensures RxEnded(Rx(Acking(sent), buf, acc), 1, e0, e1)
  {
    RxEndedLater(Rx(Acking(sent), buf, acc), 1, e, e0, e1);
  }

  lemma ReceiverBegins(lens: seq<nat>, log: seq<Act>, buf: seq<byte>, ts: seq<Tok>, pos: nat, evs: seq<WriteEvent>)
    requires |lens| > 0 && Fit(lens, buf)
    ensures ReceiverAt(lens, buf, log, |log|, buf, [], ts, pos, evs, evs, ReceiverAfter(lens, buf, [], ts, pos, evs))
  {
  }

  lemma ReceiverDone(lens: seq<nat>, buf0: seq<byte>, log: seq<Act>, lo: nat, buf: seq<byte>, acc: seq<seq<byte>>,
                     ts: seq<Tok>, pos: nat, evs: seq<WriteEvent>, out0: seq<WriteEvent>, end: After<Rx>)
    requires ReceiverAt(lens, buf0, log, lo, buf, acc, ts, pos, evs, out0, end) && |acc| == |lens|
    ensures end == After(RxRun(lens, RxInit(buf0), log, lo, |log|), pos, evs) && end.st.acc == acc
    ensures RxEnded(end.st, 0, out0, evs) && SuffixOf(evs, out0)
  {
  }

  /** The frames of a record fit the receive buffer. */
  lemma FramesFit(func: uint32, ps: seq<Portion>, blocks: Blocks, buf: seq<byte>)
    requires Owned(ps, blocks) && |buf| == BUF_SIZE
    ensures Fit(Lengths(FramesOf(func, ps, blocks)), buf) && |buf| == 256
  {
    AlwaysSendable(func, ps, blocks);
  }

  /** recChallenge. What was received replaces a prefix of the record's frames;
      the rest of the record and of the heap is untouched. */
  method RecChallenge(ch: Channel, fc: FuncCall, heap: Heap) returns (ret: int)
    requires ch.Valid() && heap.Valid() && fc.Valid() && Owned(fc.dataP[..], heap.blocks)
    modifies ch, fc, heap
    ensures ch.Valid() && Grows(old(ch.log), ch.log)
    ensures heap.Valid() && Owned(fc.dataP[..], heap.blocks) && heap.refusals == old(heap.refusals)
    ensures ret == 0 || ret == 1
    ensures var frames := FramesOf(old(fc.func), fc.dataP[..], old(heap.blocks));
      var rx := RxRun(Lengths(frames), RxInit(Rep(0, BUF_SIZE)), ch.log, |old(ch.log)|, |ch.log|);
      && RxEnded(rx, ret, old(ch.outgoing), ch.outgoing)
      && Fit(Lengths(frames), Rep(0, BUF_SIZE))
      && After(rx, ch.pos, ch.outgoing)
         == ReceiverAfter(Lengths(frames), Rep(0, BUF_SIZE), [], ch.all, old(ch.pos), old(ch.outgoing))
      && |rx.acc| <= |frames|
      && FramesOf(fc.func, fc.dataP[..], heap.blocks) == rx.acc + frames[|rx.acc|..]
    ensures OnlyThese(fc.dataP[..], old(heap.blocks), heap.blocks)
    ensures SuffixOf(ch.outgoing, old(ch.outgoing))
  {
    ghost var ps, b0, out0 := fc.dataP[..], heap.blocks, ch.outgoing;
    ghost var frames, lo, buf0 := FramesOf(fc.func, ps, b0), |ch.log|, Rep(0, BUF_SIZE);
    ghost var lens := Lengths(frames);
    var buffer := new byte[BUF_SIZE](_ => 0);
    assert buffer[..] == buf0;
    FramesFit(fc.func, ps, b0, buf0);
    ghost var end := ReceiverAfter(lens, buf0, [], ch.all, ch.pos, out0);
    ReceiverBegins(lens, ch.log, buf0, ch.all, ch.pos, out0);
    NothingReceived(fc.func, ps, b0);
    hide ReceiverAt, ReceiverAfter, RxEnded, SuffixOf, RxRun, AckStopped;
    hide FramesOf, Received, OnlyThese, PortionFrames, Owned;
    ret := ReceiveAndAck(ch, buffer, 4, lens, buf0, [], lo, out0, end);
    if ret != 0 {
      return 1;
    }
    ghost var acc := [buffer[..4]];
    assert [] + [buffer[..4]] == acc;
    fc.func := U32(buffer[..4]);
    BytesOfU32(buffer[..4]);
    IdReceived(fc.func, ps, b0);

    ghost var n := 0;
    ret, acc, n := ReceivePortions(ch, fc, heap, buffer, ps, b0, frames, buf0, acc, lo, out0, end);
    Untouched(fc.func, ps, b0, heap.blocks, n, acc, frames);
  }

  lemma NothingReceived(func: uint32, ps: seq<Portion>, b0: Blocks)
    requires Owned(ps, b0)
    ensures var frames := FramesOf(func, ps, b0);
      |frames| > 0 && |frames[0]| == 4 && frames[1..] == PortionFrames(ps, b0, 0, |ps|) && frames == [] + frames[0..]
    ensures OnlyThese(ps, b0, b0)
  {
  }

  lemma IdReceived(func: uint32, ps: seq<Portion>, b0: Blocks)
    requires Owned(ps, b0)
    ensures Received(func, ps, b0, b0, 0, [LE32(func)])
  {
  }

  /** The portion loop of recChallenge; n tells how many portions are done. */
  method ReceivePortions(ch: Channel, fc: FuncCall, heap: Heap, buffer: array<byte>,
                         ghost ps: seq<Portion>, ghost b0: Blocks, ghost frames: seq<seq<byte>>, ghost buf0: seq<byte>,
                         ghost acc0: seq<seq<byte>>, ghost lo: nat, ghost out0: seq<WriteEvent>, ghost end: After<Rx>)
    returns (ret: int, ghost acc: seq<seq<byte>>, ghost n: nat)
    requires fc.Valid() && ps == fc.dataP[..] && heap.Valid() && ch.Valid() && buffer.Length == BUF_SIZE
    requires Owned(ps, b0) && |frames| > 0 && frames[1..] == PortionFrames(ps, b0, 0, |ps|)
    requires Owned(ps, heap.blocks) && Received(fc.func, ps, b0, heap.blocks, 0, acc0)
    requires ReceiverAt(Lengths(frames), buf0, ch.log, lo, buffer[..], acc0, ch.all, ch.pos, ch.outgoing, out0, end)
    modifies ch, heap, buffer
    ensures heap.Valid() && heap.refusals == old(heap.refusals)
    ensures ch.Valid() && Grows(old(ch.log), ch.log)
    ensures ret == 0 || ret == 1
    ensures n <= |ps| && Owned(ps, heap.blocks) && Received(fc.func, ps, b0, heap.blocks, n, acc)
    ensures lo <= |ch.log| && SuffixOf(ch.outgoing, out0)
    ensures end == After(RxRun(Lengths(frames), RxInit(buf0), ch.log, lo, |ch.log|), ch.pos, ch.outgoing)
    ensures end.st.acc == acc && RxEnded(end.st, ret, out0, ch.outgoing)
  {
    acc, n := acc0, 0;
    hide ReceiverAt, SuffixOf, RxRun, Received, Owned, RxEnded, PortionFrames;
    for i := 0 to DATA_PORTIONS
      invariant heap.Valid() && heap.refusals == old(heap.refusals)
      invariant ch.Valid() && Grows(old(ch.log), ch.log)
      invariant Owned(ps, heap.blocks) && Received(fc.func, ps, b0, heap.blocks, i, acc)
      invariant ReceiverAt(Lengths(frames), buf0, ch.log, lo, buffer[..], acc, ch.all, ch.pos, ch.outgoing, out0, end)
    {
      if fc.dataP[i].data.Block? && fc.dataP[i].len > 0 {
        ret, acc := ReceivePortion(ch, fc, heap, buffer, i, ps, b0, frames, buf0, acc, lo, out0, end);
        if ret != 0 {
          return 1, acc, i;
        }
      } else {
        SkipPortion(fc.func, ps, b0, heap.blocks, i, acc);
      }
    }
    AllPortions(fc.func, ps, b0, heap.blocks, acc, frames);
    ReceiverDone(Lengths(frames), buf0, ch.log, lo, buffer[..], acc, ch.all, ch.pos, ch.outgoing, out0, end);
    return 0, acc, DATA_PORTIONS;
  }

  lemma SkipPortion(func: uint32, ps: seq<Portion>, b0: Blocks, b: Blocks, i: nat, acc: seq<seq<byte>>)
    requires i < |ps| && Owned(ps, b0) && Owned(ps, b) && !Active(ps[i]) && Received(func, ps, b0, b, i, acc)
    ensures Received(func, ps, b0, b, i + 1, acc)
  {
  }

  lemma AllPortions(func: uint32, ps: seq<Portion>, b0: Blocks, b: Blocks, acc: seq<seq<byte>>, frames: seq<seq<byte>>)
    requires Owned(ps, b0) && Owned(ps, b) && Received(func, ps, b0, b, |ps|, acc)
    requires |frames| > 0 && frames[1..] == PortionFrames(ps, b0, 0, |ps|)
    ensures |acc| == |Lengths(frames)|
  {
    assert |frames[1..]| == |frames| - 1;
  }

  /** The body of the portion loop of recChallenge. */
  method ReceivePortion(ch: Channel, fc: FuncCall, heap: Heap, buffer: array<byte>, i: nat,
                        ghost ps: seq<Portion>, ghost b0: Blocks, ghost frames: seq<seq<byte>>, ghost buf0: seq<byte>,
                        ghost acc: seq<seq<byte>>, ghost lo: nat, ghost out0: seq<WriteEvent>, ghost end: After<Rx>)
    returns (ret: int, ghost acc': seq<seq<byte>>)
    requires fc.Valid() && i < DATA_PORTIONS && ps == fc.dataP[..] && Active(ps[i])
    requires heap.Valid() && ch.Valid() && buffer.Length == BUF_SIZE
    requires Owned(ps, b0) && |frames| > 0 && frames[1..] == PortionFrames(ps, b0, 0, |ps|)
    requires Owned(ps, heap.blocks) && Received(fc.func, ps, b0, heap.blocks, i, acc)
    requires ReceiverAt(Lengths(frames), buf0, ch.log, lo, buffer[..], acc, ch.all, ch.pos, ch.outgoing, out0, end)
    modifies ch, heap, buffer
    ensures heap.Valid() && heap.refusals == old(heap.refusals)
    ensures ch.Valid() && Grows(old(ch.log), ch.log)
    ensures ret == 0 || ret == 1
    ensures Owned(ps, heap.blocks) && Received(fc.func, ps, b0, heap.blocks, i + 1 - ret, acc')
    ensures ret == 0 ==>
              ReceiverAt(Lengths(frames), buf0, ch.log, lo, buffer[..], acc', ch.all, ch.pos, ch.outgoing, out0, end)
    ensures ret == 1 ==> ReceiverStops(Lengths(frames), buf0, ch.log, lo, acc', ch.pos, ch.outgoing, out0, end)
  {
    FrameIndex(fc.func, ps, b0, i, frames);
    assert |acc| == 1 + |PortionFrames(ps, b0, 0, i)| && |frames[|acc|]| == ps[i].len;
    hide ReceiverAt, ReceiverStops, Received, PortionFrames;
    ret := ReceiveAndAck(ch, buffer, fc.dataP[i].len, Lengths(frames), buf0, acc, lo, out0, end);
    if ret != 0 {
      return 1, acc;
    }
    ghost var b, data := heap.blocks, buffer[..fc.dataP[i].len];
    heap.Store(fc.dataP[i].data, buffer[..fc.dataP[i].len]);
    assert data + b[ps[i].data.addr][|data|..] == data;
    OneMore(fc.func, ps, b0, b, heap.blocks, i, acc, data);
    return 0, acc + [data];
  }

  /** acc is the id and the first i portions, which is all that has changed
      between the heaps b0 and b. */
  ghost predicate Received(func: uint32, ps: seq<Portion>, b0: Blocks, b: Blocks, i: nat, acc: seq<seq<byte>>)
    requires i <= |ps| && Owned(ps, b0) && Owned(ps, b)
  {
    && |acc| == 1 + |PortionFrames(ps, b0, 0, i)|
    && acc == [LE32(func)] + PortionFrames(ps, b, 0, i)
    && (forall k | i <= k < |ps| && ps[k].data.Block? :: b[ps[k].data.addr] == b0[ps[k].data.addr])
    && OnlyThese(ps, b0, b)
  }

  /** Where portion i is among the frames. */
  lemma FrameIndex(func: uint32, ps: seq<Portion>, b0: Blocks, i: nat, frames: seq<seq<byte>>)
    requires i < |ps| && Owned(ps, b0) && |frames| > 0 && frames[1..] == PortionFrames(ps, b0, 0, |ps|)
    ensures var f := 1 + |PortionFrames(ps, b0, 0, i)|;
      Active(ps[i]) ==> f < |frames| && frames[f] == b0[ps[i].data.addr]
  {
    SplitFrames(ps, b0, 0, i, |ps|);
    SplitFrames(ps, b0, i, i + 1, |ps|);
    if Active(ps[i]) {
      var f := |PortionFrames(ps, b0, 0, i)|;
      assert PortionFrames(ps, b0, i, i + 1) == [b0[ps[i].data.addr]];
      assert frames[1..][f] == b0[ps[i].data.addr];
    }
  }

  lemma OneMore(func: uint32, ps: seq<Portion>, b0: Blocks, b: Blocks, b': Blocks, i: nat, acc: seq<seq<byte>>,
                data: seq<byte>)
    requires i < |ps| && Owned(ps, b0) && Owned(ps, b) && Received(func, ps, b0, b, i, acc)
    requires Active(ps[i]) && |data| == ps[i].len && b' == b[ps[i].data.addr := data]
    ensures Owned(ps, b') && Received(func, ps, b0, b', i + 1, acc + [data])
  {
    StoreKeeps(ps, b, b', i, data);
    SameFrames(ps, b, b', 0, i);
  }

  /** The portions from i on still hold what they held. */
  lemma Untouched(func: uint32, ps: seq<Portion>, b0: Blocks, b: Blocks, i: nat, acc: seq<seq<byte>>,
                  frames: seq<seq<byte>>)
    requires i <= |ps| && Owned(ps, b0) && Owned(ps, b) && Received(func, ps, b0, b, i, acc)
    requires |frames| > 0 && frames[1..] == PortionFrames(ps, b0, 0, |ps|)
    ensures |acc| <= |frames| && FramesOf(func, ps, b) == acc + frames[|acc|..]
  {
    SplitFrames(ps, b0, 0, i, |ps|);
    SplitFrames(ps, b, 0, i, |ps|);
    SameFrames(ps, b, b0, i, |ps|);
    assert frames[|acc|..] == frames[1..][|acc| - 1..];
  }
}
