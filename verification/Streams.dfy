/** What completed runs wrote and read: a completed sender has written exactly
    its frames, and a receiver fed with the bytes of frames of the lengths it
    expects completes only by having received exactly those. */
module Streams {
  import opened Bytes
  import opened Channel
  import opened Framing
  import opened Reception
  import opened Transmission
  import opened Protocol

  lemma {:induction false} WritesSplit(log: seq<Act>, lo: nat, mid: nat, hi: nat)
    requires lo <= mid <= hi <= |log|
    ensures WritesIn(log, lo, hi) == WritesIn(log, lo, mid) + WritesIn(log, mid, hi)
    decreases mid - lo
  {
    if lo < mid {
      WritesSplit(log, lo + 1, mid, hi);
    }
  }

  lemma ReadStep(log: seq<Act>, lo: nat, hi: nat, b: byte, rest: seq<byte>, all: seq<byte>)
    requires lo < hi <= |log| && log[lo] == Rd(Byte(b)) && ReadsIn(log, lo + 1, hi) == Toks(rest) && all == [b] + rest
    ensures ReadsIn(log, lo, hi) == Toks(all) && WritesIn(log, lo, hi) == WritesIn(log, lo + 1, hi)
  {
    assert ReadsIn(log, lo, hi) == [Byte(b)] + ReadsIn(log, lo + 1, hi);
    assert Toks(all) == [Byte(b)] + Toks(rest);
  }

  lemma WriteStep(log: seq<Act>, lo: nat, hi: nat, b: byte)
    requires lo < hi <= |log| && log[lo] == Wr(b)
    ensures WritesIn(log, lo, hi) == [b] + WritesIn(log, lo + 1, hi) && ReadsIn(log, lo, hi) == ReadsIn(log, lo + 1, hi)
  {
  }

  /** The bytes of the frames from number i on. */
  function WireFrom(frames: seq<seq<byte>>, i: nat): seq<byte>
    requires i <= |frames|
    decreases |frames| - i
  {
    if i == |frames| then [] else Wire(frames[i]) + WireFrom(frames, i + 1)
  }

  /** The same, after the first k bytes of frame i. */
  function WireAfter(frames: seq<seq<byte>>, i: nat, k: nat): seq<byte>
    requires i < |frames| && k <= |frames[i]| + 8
  {
    Wire(frames[i])[k..] + WireFrom(frames, i + 1)
  }

  lemma WireNext(frames: seq<seq<byte>>, i: nat, k: nat)
    requires i < |frames| && k < |frames[i]| + 8
    ensures WireAfter(frames, i, k) == [Wire(frames[i])[k]] + WireAfter(frames, i, k + 1)
    ensures WireAfter(frames, i, 0) == WireFrom(frames, i)
    ensures WireAfter(frames, i, |frames[i]| + 8) == WireFrom(frames, i + 1)
  {
    var w := Wire(frames[i]);
    assert w[k..] == [w[k]] + w[k + 1..];
  }

  /** n acknowledgements, the first of them after its first k bytes. */
  function Acks(n: nat): seq<byte> {
    if n == 0 then [] else ACK + Acks(n - 1)
  }

  function AcksAfter(n: nat, k: nat): seq<byte>
    requires n > 0 && k <= 3
  {
    ACK[k..] + Acks(n - 1)
  }

  lemma AckNext(n: nat, k: nat)
    requires n > 0 && k < 3
    ensures AcksAfter(n, k) == [ACK[k]] + AcksAfter(n, k + 1)
    ensures AcksAfter(n, 0) == Acks(n) && AcksAfter(n, 3) == Acks(n - 1)
  {
    assert ACK[k..] == [ACK[k]] + ACK[k + 1..];
  }

  // ---------------------------------------------------------------- the sender

  lemma {:induction false} TxStuck(frames: seq<seq<byte>>, tx: Tx, log: seq<Act>, lo: nat, hi: nat)
    requires lo <= hi <= |log| && (tx.pc.TxBad? || tx.pc.TxFail?)
    ensures !TxRun(frames, tx, log, lo, hi).pc.TxDone?
    decreases hi - lo
  {
    if lo < hi {
      TxStuck(frames, TxStep(frames, tx, log[lo]), log, lo + 1, hi);
    }
  }

  lemma TxEnds(frames: seq<seq<byte>>, log: seq<Act>, lo: nat, hi: nat)
    requires lo <= hi <= |log| && TxRun(frames, Tx(TxDone, |frames|), log, lo, hi).pc.TxDone?
    ensures lo == hi
  {
    if lo < hi {
      TxStuck(frames, Tx(TxBad, |frames|), log, lo + 1, hi);
    }
  }

  /** A run to completion from the middle of frame i. */
  lemma {:induction false} SenderSends(frames: seq<seq<byte>>, log: seq<Act>, lo: nat, hi: nat, i: nat, k: nat)
    requires lo <= hi <= |log| && i < |frames| && k < |frames[i]| + 8
    requires TxRun(frames, Tx(Sending(k), i), log, lo, hi).pc.TxDone?
    ensures WritesIn(log, lo, hi) == WireAfter(frames, i, k)
    ensures ReadsIn(log, lo, hi) == Toks(Acks(|frames| - i))
    decreases hi - lo
  {
    SendsNext(frames, log, lo, hi, i, k);
    hide *;
    WireNext(frames, i, k);
    WriteStep(log, lo, hi, Wire(frames[i])[k]);
    if k + 1 < |frames[i]| + 8 {
      SenderSends(frames, log, lo + 1, hi, i, k + 1);
    } else {
      SenderWaits(frames, log, lo + 1, hi, i, []);
      AckNext(|frames| - i, 0);
    }
  }

  /** A sender in a frame that completes later writes the next byte of it now. */
  lemma SendsNext(frames: seq<seq<byte>>, log: seq<Act>, lo: nat, hi: nat, i: nat, k: nat)
    requires lo <= hi <= |log| && i < |frames| && k < |frames[i]| + 8
    requires TxRun(frames, Tx(Sending(k), i), log, lo, hi).pc.TxDone?
    ensures lo < hi && log[lo] == Wr(Wire(frames[i])[k])
    ensures var pc := if k + 1 < |frames[i]| + 8 then Sending(k + 1) else Awaiting([]);
      TxRun(frames, Tx(pc, i), log, lo + 1, hi).pc.TxDone?
  {
    assert lo < hi;
    var tx := TxStep(frames, Tx(Sending(k), i), log[lo]);
    if tx.pc.TxBad? {
      TxStuck(frames, tx, log, lo + 1, hi);
    }
  }

  lemma AckByte(got: seq<byte>, b: byte, more: seq<byte>)
    requires |got| < 3 && more == got + [b] && more == ACK[..|more|]
    ensures got == ACK[..|got|] && b == ACK[|got|]
  {
    var k := |got|;
    assert more[..k] == got && more[k] == b;
    assert ACK[..k + 1][..k] == ACK[..k];
  }

  lemma AckWhole(got: seq<byte>)
    requires got == ACK
    ensures |got| == 3 && got == ACK[..|got|]
  {
  }

  /** A run to completion from the middle of the acknowledgement of frame i. */
  lemma {:induction false} SenderWaits(frames: seq<seq<byte>>, log: seq<Act>, lo: nat, hi: nat, i: nat, got: seq<byte>)
    requires lo <= hi <= |log| && i < |frames| && |got| < 3
    requires TxRun(frames, Tx(Awaiting(got), i), log, lo, hi).pc.TxDone?
    ensures got == ACK[..|got|]
    ensures WritesIn(log, lo, hi) == WireFrom(frames, i + 1)
    ensures ReadsIn(log, lo, hi) == Toks(AcksAfter(|frames| - i, |got|))
    decreases hi - lo
  {
    var b := WaitsNext(frames, log, lo, hi, i, got);
    hide *;
    var n, k, more := |frames| - i, |got|, got + [b];
    assert |more| == k + 1;
    if k < 2 {
      SenderWaits(frames, log, lo + 1, hi, i, more);
    } else {
      AckWhole(more);
      if i + 1 < |frames| {
        WireNext(frames, i + 1, 0);
        SenderSends(frames, log, lo + 1, hi, i + 1, 0);
      } else {
        TxEnds(frames, log, lo + 1, hi);
      }
    }
    AckByte(got, b, more);
    AckNext(n, k);
    ReadStep(log, lo, hi, b, AcksAfter(n, k + 1), AcksAfter(n, k));
  }

  /** A sender in an acknowledgement that completes later reads the next byte now. */
  lemma WaitsNext(frames: seq<seq<byte>>, log: seq<Act>, lo: nat, hi: nat, i: nat, got: seq<byte>) returns (b: byte)
    requires lo <= hi <= |log| && i < |frames| && |got| < 3
    requires TxRun(frames, Tx(Awaiting(got), i), log, lo, hi).pc.TxDone?
    ensures lo < hi && log[lo] == Rd(Byte(b)) && (|got| == 2 ==> got + [b] == ACK)
    ensures var tx := if |got| < 2 then Tx(Awaiting(got + [b]), i)
                      else if i + 1 < |frames| then Tx(Sending(0), i + 1) else Tx(TxDone, |frames|);
      TxRun(frames, tx, log, lo + 1, hi).pc.TxDone?
  {
    assert lo < hi;
    var tx := TxStep(frames, Tx(Awaiting(got), i), log[lo]);
    if tx.pc.TxBad? || tx.pc.TxFail? {
      TxStuck(frames, tx, log, lo + 1, hi);
    }
    b := log[lo].tok.b;
  }

  // ---------------------------------------------------------------- the receiver

  predicate AllBreak(ts: seq<Tok>) {
    forall i | 0 <= i < |ts| :: ts[i] == Break
  }

  /** The tokens are the first bytes of w, and then possibly the end. */
  predicate Fed(ts: seq<Tok>, w: seq<byte>) {
    ts == [] || AllBreak(ts) || (w != [] && ts[0] == Byte(w[0]) && Fed(ts[1..], w[1..]))
  }

  lemma {:induction false} FedRest(a: seq<byte>, ts: seq<Tok>, w: seq<byte>)
    requires Fed(Toks(a) + ts, a + w)
    ensures Fed(ts, w)
    decreases |a|
  {
    if a == [] {
      assert Toks(a) + ts == ts && a + w == w;
    } else {
      var u := Toks(a) + ts;
      assert u[0] == Byte(a[0]);
      assert u[1..] == Toks(a[1..]) + ts && (a + w)[1..] == a[1..] + w;
      FedRest(a[1..], ts, w);
    }
  }

  lemma {:induction false} FedFront(a: seq<Tok>, b: seq<Tok>, w: seq<byte>)
    requires Fed(a + b, w)
    ensures Fed(a, w)
    decreases |a|
  {
    if a != [] {
      assert (a + b)[0] == a[0] && (a + b)[1..] == a[1..] + b;
      if AllBreak(a + b) {
        assert forall i | 0 <= i < |a| :: a[i] == (a + b)[i];
      } else {
        FedFront(a[1..], b, w[1..]);
      }
    }
  }

  lemma {:induction false} RxStuck(lens: seq<nat>, rx: Rx, log: seq<Act>, lo: nat, hi: nat)
    requires lo <= hi <= |log| && (rx.pc.RxBad? || rx.pc.RxFail?)
    ensures !RxRun(lens, rx, log, lo, hi).pc.RxDone?
    decreases hi - lo
  {
    if lo < hi {
      RxStuck(lens, RxStep(lens, rx, log[lo]), log, lo + 1, hi);
    }
  }

  lemma RxEnds(lens: seq<nat>, rx: Rx, log: seq<Act>, lo: nat, hi: nat)
    requires lo <= hi <= |log| && |rx.acc| == |lens| && RxRun(lens, rx, log, lo, hi).pc.RxDone?
    ensures lo == hi
  {
    if lo < hi {
      RxStuck(lens, rx.(pc := RxBad), log, lo + 1, hi);
    }
  }

  /** Once the input has ended, a frame under way is not accepted. */
  lemma {:induction false} RxBroken(lens: seq<nat>, rx: Rx, log: seq<Act>, lo: nat, hi: nat)
    requires lo <= hi <= |log| && AllBreak(ReadsIn(log, lo, hi))
    requires rx.pc.Receiving? && (rx.pc.ph.Stop? ==> rx.pc.ph.seqBuf != STOP)
    ensures !RxRun(lens, rx, log, lo, hi).pc.RxDone?
    decreases hi - lo
  {
    if lo < hi {
      var rx' := RxStep(lens, rx, log[lo]);
      BreakTail(log, lo, hi);
      if rx'.pc.RxBad? || rx'.pc.RxFail? {
        RxStuck(lens, rx', log, lo + 1, hi);
      } else {
        assert START[3] != STOP[3];
        RxBroken(lens, rx', log, lo + 1, hi);
      }
    }
  }

  lemma BreakTail(log: seq<Act>, lo: nat, hi: nat)
    requires lo < hi <= |log| && AllBreak(ReadsIn(log, lo, hi))
    ensures log[lo].Rd? ==> log[lo].tok == Break
    ensures AllBreak(ReadsIn(log, lo + 1, hi))
  {
    var ts, us := ReadsIn(log, lo, hi), ReadsIn(log, lo + 1, hi);
    var d := if log[lo].Rd? then 1 else 0;
    assert log[lo].Rd? ==> ts[0] == log[lo].tok;
    assert forall i | 0 <= i < |us| :: us[i] == ts[i + d];
  }

  /** The receiver is c bytes into frame i, or k bytes into its acknowledgement. */
  ghost predicate AtFrame(frames: seq<seq<byte>>, rx: Rx, i: nat, c: nat)
    requires i < |frames|
  {
    && c < |frames[i]| + 8 && rx.pc == Receiving(PhaseAt(frames[i], c))
    && |rx.buf| == BUF_SIZE && rx.acc == frames[..i] && Stored(frames[i], c) <= rx.buf
  }

  ghost predicate AtAck(frames: seq<seq<byte>>, rx: Rx, i: nat, k: nat)
    requires i < |frames|
  {
    k < 3 && rx.pc == Acking(k) && |rx.buf| == BUF_SIZE && rx.acc == frames[..i] && frames[i] <= rx.buf
  }

  /** A run to completion from the middle of frame i, when the input to come
      starts with the rest of the frames. */
  lemma {:induction false} ReceiverReceives(frames: seq<seq<byte>>, rx: Rx, log: seq<Act>, lo: nat, hi: nat, i: nat,
                                            c: nat, more: seq<byte>)
    requires lo <= hi <= |log| && i < |frames| && Sendable(frames) && AtFrame(frames, rx, i, c)
    requires Fed(ReadsIn(log, lo, hi), WireAfter(frames, i, c) + more)
    requires RxRun(Lengths(frames), rx, log, lo, hi).pc.RxDone?
    ensures RxRun(Lengths(frames), rx, log, lo, hi).acc == frames
    ensures ReadsIn(log, lo, hi) == Toks(WireAfter(frames, i, c))
    ensures WritesIn(log, lo, hi) == Acks(|frames| - i)
    decreases hi - lo, 0
  {
    assert c < |frames[i]| + 8;
    hide *;
    ReceivesNext(frames, rx, log, lo, hi, i, c, more);
    WireNext(frames, i, c);
    var b := Wire(frames[i])[c];
    var rx' := RxStep(Lengths(frames), rx, log[lo]);
    ReceivesRest(frames, rx', log, lo + 1, hi, i, c + 1, more);
    ReadStep(log, lo, hi, b, WireAfter(frames, i, c + 1), WireAfter(frames, i, c));
  }

  lemma {:induction false} ReceivesRest(frames: seq<seq<byte>>, rx: Rx, log: seq<Act>, lo: nat, hi: nat, i: nat, c: nat,
                                        more: seq<byte>)
    requires lo <= hi <= |log| && i < |frames| && Sendable(frames) && c <= |frames[i]| + 8
    requires if c < |frames[i]| + 8 then AtFrame(frames, rx, i, c) else AtAck(frames, rx, i, 0)
    requires Fed(ReadsIn(log, lo, hi), WireAfter(frames, i, c) + more)
    requires RxRun(Lengths(frames), rx, log, lo, hi).pc.RxDone?
    ensures RxRun(Lengths(frames), rx, log, lo, hi).acc == frames
    ensures ReadsIn(log, lo, hi) == Toks(WireAfter(frames, i, c))
    ensures WritesIn(log, lo, hi) == Acks(|frames| - i)
    decreases hi - lo, 2
  {
    hide *;
    if c < |frames[i]| + 8 {
      ReceiverReceives(frames, rx, log, lo, hi, i, c, more);
    } else {
      FrameRead(frames, rx, log, lo, hi, i, more);
    }
  }

  /** A receiver in a frame that completes later reads the next byte of it now. */
  lemma ReceivesNext(frames: seq<seq<byte>>, rx: Rx, log: seq<Act>, lo: nat, hi: nat, i: nat, c: nat, more: seq<byte>)
    requires lo <= hi <= |log| && i < |frames| && Sendable(frames) && AtFrame(frames, rx, i, c)
    requires Fed(ReadsIn(log, lo, hi), WireAfter(frames, i, c) + more)
    requires RxRun(Lengths(frames), rx, log, lo, hi).pc.RxDone?
    ensures lo < hi && log[lo] == Rd(Byte(Wire(frames[i])[c]))
    ensures Fed(ReadsIn(log, lo + 1, hi), WireAfter(frames, i, c + 1) + more)
    ensures var rx' := RxStep(Lengths(frames), rx, log[lo]);
      && RxRun(Lengths(frames), rx, log, lo, hi) == RxRun(Lengths(frames), rx', log, lo + 1, hi)
      && if c + 1 < |frames[i]| + 8 then AtFrame(frames, rx', i, c + 1) else AtAck(frames, rx', i, 0)
  {
    StillOpen(frames, rx, log, lo, hi, i, c);
    var rx' := RxStep(Lengths(frames), rx, log[lo]);
    assert RxRun(Lengths(frames), rx, log, lo, hi) == RxRun(Lengths(frames), rx', log, lo + 1, hi);
    hide *;
    var b := Wire(frames[i])[c];
    WireNext(frames, i, c);
    OneInFront(b, WireAfter(frames, i, c + 1), more);
    FedByte(log, lo, hi, b, WireAfter(frames, i, c + 1) + more, WireAfter(frames, i, c) + more);
    TakesByte(frames, rx, i, c);
  }

  /** A receiver in a frame that completes later reads now, and finds more than the end. */
  lemma StillOpen(frames: seq<seq<byte>>, rx: Rx, log: seq<Act>, lo: nat, hi: nat, i: nat, c: nat)
    requires lo <= hi <= |log| && i < |frames| && AtFrame(frames, rx, i, c)
    requires RxRun(Lengths(frames), rx, log, lo, hi).pc.RxDone?
    ensures lo < hi && log[lo].Rd? && !AllBreak(ReadsIn(log, lo, hi))
  {
    assert lo < hi;
    if log[lo].Wr? {
      RxStuck(Lengths(frames), RxStep(Lengths(frames), rx, log[lo]), log, lo + 1, hi);
    }
    if AllBreak(ReadsIn(log, lo, hi)) {
      assert rx.pc.ph.Stop? ==> rx.pc.ph.seqBuf[3] == START[3];
      RxBroken(Lengths(frames), rx, log, lo, hi);
    }
  }

  lemma OneInFront(b: byte, s: seq<byte>, t: seq<byte>)
    ensures ([b] + s) + t == [b] + (s + t)
  {
  }

  lemma FedByte(log: seq<Act>, lo: nat, hi: nat, b: byte, rest: seq<byte>, w: seq<byte>)
    requires lo < hi <= |log| && log[lo].Rd? && !AllBreak(ReadsIn(log, lo, hi))
    requires w == [b] + rest && Fed(ReadsIn(log, lo, hi), w)
    ensures log[lo] == Rd(Byte(b)) && Fed(ReadsIn(log, lo + 1, hi), rest)
  {
    assert ReadsIn(log, lo, hi)[1..] == ReadsIn(log, lo + 1, hi);
    assert w[1..] == rest;
  }

  lemma TakesByte(frames: seq<seq<byte>>, rx: Rx, i: nat, c: nat)
    requires i < |frames| && Sendable(frames) && AtFrame(frames, rx, i, c)
    ensures var rx' := RxStep(Lengths(frames), rx, Rd(Byte(Wire(frames[i])[c])));
      if c + 1 < |frames[i]| + 8 then AtFrame(frames, rx', i, c + 1) else AtAck(frames, rx', i, 0)
  {
    RxOnByte(frames, rx, c);
  }

  /** A run to completion from the end of frame i. */
  lemma {:induction false} FrameRead(frames: seq<seq<byte>>, rx: Rx, log: seq<Act>, lo: nat, hi: nat, i: nat,
                                     more: seq<byte>)
    requires lo <= hi <= |log| && i < |frames| && Sendable(frames) && AtAck(frames, rx, i, 0)
    requires Fed(ReadsIn(log, lo, hi), WireAfter(frames, i, |frames[i]| + 8) + more)
    requires RxRun(Lengths(frames), rx, log, lo, hi).pc.RxDone?
    ensures RxRun(Lengths(frames), rx, log, lo, hi).acc == frames
    ensures ReadsIn(log, lo, hi) == Toks(WireAfter(frames, i, |frames[i]| + 8))
    ensures WritesIn(log, lo, hi) == Acks(|frames| - i)
    decreases hi - lo, 1
  {
    hide *;
    WireNext(frames, i, 0);
    ReceiverAcks(frames, rx, log, lo, hi, i, 0, more);
    AckNext(|frames| - i, 0);
  }

  lemma {:induction false} ReceiverAcks(frames: seq<seq<byte>>, rx: Rx, log: seq<Act>, lo: nat, hi: nat, i: nat, k: nat,
                                        more: seq<byte>)
    requires lo <= hi <= |log| && i < |frames| && Sendable(frames) && AtAck(frames, rx, i, k)
    requires Fed(ReadsIn(log, lo, hi), WireFrom(frames, i + 1) + more)
    requires RxRun(Lengths(frames), rx, log, lo, hi).pc.RxDone?
    ensures RxRun(Lengths(frames), rx, log, lo, hi).acc == frames
    ensures ReadsIn(log, lo, hi) == Toks(WireFrom(frames, i + 1))
    ensures WritesIn(log, lo, hi) == AcksAfter(|frames| - i, k)
    decreases hi - lo, 0
  {
    assert k < 3;
    hide *;
    AcksNext(frames, rx, log, lo, hi, i, k);
    var rx' := RxStep(Lengths(frames), rx, log[lo]);
    AckNext(|frames| - i, k);
    WriteStep(log, lo, hi, ACK[k]);
    AcksRest(frames, rx, rx', log, lo + 1, hi, i, k, more);
  }

  lemma {:induction false} AcksRest(frames: seq<seq<byte>>, rx0: Rx, rx: Rx, log: seq<Act>, lo: nat, hi: nat, i: nat,
                                    k: nat, more: seq<byte>)
    requires lo <= hi <= |log| && i < |frames| && Sendable(frames) && k < 3
    requires AtAck(frames, rx0, i, k) && rx == RxStep(Lengths(frames), rx0, Wr(ACK[k]))
    requires k < 2 ==> AtAck(frames, rx, i, k + 1)
    requires Fed(ReadsIn(log, lo, hi), WireFrom(frames, i + 1) + more)
    requires RxRun(Lengths(frames), rx, log, lo, hi).pc.RxDone?
    ensures RxRun(Lengths(frames), rx, log, lo, hi).acc == frames
    ensures ReadsIn(log, lo, hi) == Toks(WireFrom(frames, i + 1))
    ensures WritesIn(log, lo, hi) == AcksAfter(|frames| - i, k + 1)
    decreases hi - lo, 2
  {
    hide *;
    if k < 2 {
      ReceiverAcks(frames, rx, log, lo, hi, i, k + 1, more);
    } else {
      FrameDone(frames, rx0, i);
      NextFrame(frames, rx, log, lo, hi, i, more);
    }
  }

  /** A receiver in an acknowledgement that completes later writes the next byte now. */
  lemma AcksNext(frames: seq<seq<byte>>, rx: Rx, log: seq<Act>, lo: nat, hi: nat, i: nat, k: nat)
    requires lo <= hi <= |log| && i < |frames| && Sendable(frames) && AtAck(frames, rx, i, k)
    requires RxRun(Lengths(frames), rx, log, lo, hi).pc.RxDone?
    ensures lo < hi && log[lo] == Wr(ACK[k])
    ensures var rx' := RxStep(Lengths(frames), rx, log[lo]);
      && RxRun(Lengths(frames), rx, log, lo, hi) == RxRun(Lengths(frames), rx', log, lo + 1, hi)
      && (k < 2 ==> AtAck(frames, rx', i, k + 1))
  {
    assert lo < hi;
    var rx' := RxStep(Lengths(frames), rx, log[lo]);
    if rx'.pc.RxBad? {
      RxStuck(Lengths(frames), rx', log, lo + 1, hi);
    }
  }

  lemma FrameDone(frames: seq<seq<byte>>, rx: Rx, i: nat)
    requires i < |frames| && Sendable(frames) && AtAck(frames, rx, i, 2)
    ensures var rx' := RxStep(Lengths(frames), rx, Wr(ACK[2]));
      && rx'.acc == frames[..i + 1] && |rx'.buf| == BUF_SIZE
      && rx'.pc == if i + 1 == |frames| then RxDone else Receiving(Hunt([]))
  {
    assert rx.buf[..|frames[i]|] == frames[i];
  }

  lemma {:induction false} NextFrame(frames: seq<seq<byte>>, rx: Rx, log: seq<Act>, lo: nat, hi: nat, i: nat,
                                     more: seq<byte>)
    requires lo <= hi <= |log| && i < |frames| && Sendable(frames)
    requires rx.acc == frames[..i + 1] && |rx.buf| == BUF_SIZE
    requires rx.pc == if i + 1 == |frames| then RxDone else Receiving(Hunt([]))
    requires Fed(ReadsIn(log, lo, hi), WireFrom(frames, i + 1) + more)
    requires RxRun(Lengths(frames), rx, log, lo, hi).pc.RxDone?
    ensures RxRun(Lengths(frames), rx, log, lo, hi).acc == frames
    ensures ReadsIn(log, lo, hi) == Toks(WireFrom(frames, i + 1))
    ensures WritesIn(log, lo, hi) == AcksAfter(|frames| - i, 3)
    decreases hi - lo, 1
  {
    var i', n := i + 1, |frames| - i;
    AckNext(n, 2);
    assert |frames| - i' == n - 1;
    if i' < |frames| {
      WireNext(frames, i', 0);
      assert START[..0] == [];
      hide RxStep, ReadsIn, WritesIn, Fed, WireFrom, Acks, AcksAfter, RxRun, Lengths, WireAfter;
      ReceiverReceives(frames, rx, log, lo, hi, i', 0, more);
    } else {
      hide RxStep, Fed;
      RxEnds(Lengths(frames), rx, log, lo, hi);
    }
  }

  lemma {:induction false} AcksLength(n: nat)
    ensures |Acks(n)| == 3 * n
  {
    if n > 0 {
      AcksLength(n - 1);
    }
  }

  /** The acknowledgements are the same three bytes over and over. */
  lemma {:induction false} AcksIndex(n: nat, j: nat)
    requires j < |Acks(n)|
    ensures Acks(n)[j] == ACK[j % 3]
    decreases n
  {
    if j >= 3 {
      AcksIndex(n - 1, j - 3);
    }
  }

  /** How many bytes of acknowledgements a receiver has written. */
  function AckBytes(rx: Rx): nat {
    3 * |rx.acc| + if rx.pc.Acking? then rx.pc.sent else 0
  }

  /** w goes on with the acknowledgements after their first n bytes. */
  predicate AckStream(w: seq<byte>, n: nat) {
    forall j | 0 <= j < |w| :: w[j] == ACK[(n + j) % 3]
  }

  lemma AckStreamOn(b: byte, v: seq<byte>, n: nat)
    requires AckStream(v, n + 1) && b == ACK[n % 3]
    ensures AckStream([b] + v, n)
  {
    var w := [b] + v;
    forall j | 0 <= j < |w|
      ensures w[j] == ACK[(n + j) % 3]
    {
      if j > 0 {
        assert v[j - 1] == ACK[(n + 1 + (j - 1)) % 3];
      }
    }
  }

  lemma WritesNext(lens: seq<nat>, rx: Rx, rx': Rx, log: seq<Act>, lo: nat, m: nat, hi: nat, e: Rx)
    requires m == lo + 1 <= hi <= |log| && rx' == RxStep(lens, rx, log[lo]) && !rx'.pc.RxBad?
    requires AckStream(WritesIn(log, m, hi), AckBytes(rx')) && |WritesIn(log, m, hi)| + AckBytes(rx') == AckBytes(e)
    ensures AckStream(WritesIn(log, lo, hi), AckBytes(rx)) && |WritesIn(log, lo, hi)| + AckBytes(rx) == AckBytes(e)
  {
    var v, n := WritesIn(log, m, hi), AckBytes(rx);
    assert WritesIn(log, lo, hi) == if log[lo].Wr? then [log[lo].b] + v else v;
    hide *;
    AckByteWritten(lens, rx, log[lo]);
    if log[lo].Wr? {
      assert AckStream(v, n + 1);
      AckStreamOn(log[lo].b, v, n);
    }
  }

  /** A receiver writes acknowledgements, and one for each frame that it stores. */
  lemma {:induction false} WritesAcks(lens: seq<nat>, rx: Rx, log: seq<Act>, lo: nat, hi: nat)
    requires lo <= hi <= |log| && !RxRun(lens, rx, log, lo, hi).pc.RxBad?
    ensures AckStream(WritesIn(log, lo, hi), AckBytes(rx))
    ensures |WritesIn(log, lo, hi)| + AckBytes(rx) == AckBytes(RxRun(lens, rx, log, lo, hi))
    decreases hi - lo
  {
    if lo == hi {
      hide RxStep, AckBytes;
    } else {
      var m, rx' := lo + 1, RxStep(lens, rx, log[lo]);
      var e := RxRun(lens, rx', log, m, hi);
      assert RxRun(lens, rx, log, lo, hi) == e;
      hide *;
      if rx'.pc.RxBad? {
        BadStays(lens, rx', log, m, hi);
      } else {
        WritesAcks(lens, rx', log, m, hi);
        WritesNext(lens, rx, rx', log, lo, m, hi, e);
      }
    }
  }

  lemma AckByteWritten(lens: seq<nat>, rx: Rx, act: Act)
    requires !RxStep(lens, rx, act).pc.RxBad?
    ensures AckBytes(RxStep(lens, rx, act)) == AckBytes(rx) + if act.Wr? then 1 else 0
    ensures act.Wr? ==> act.b == ACK[AckBytes(rx) % 3]
  {
  }

  lemma {:induction false} BadStays(lens: seq<nat>, rx: Rx, log: seq<Act>, lo: nat, hi: nat)
    requires lo <= hi <= |log| && rx.pc.RxBad?
    ensures RxRun(lens, rx, log, lo, hi).pc.RxBad?
    decreases hi - lo
  {
    if lo < hi {
      BadStays(lens, RxStep(lens, rx, log[lo]), log, lo + 1, hi);
    }
  }

  /** A completed sender wrote its frames and read one acknowledgement for each. */
  lemma SenderStream(frames: seq<seq<byte>>, log: seq<Act>, lo: nat, hi: nat)
    requires lo <= hi <= |log| && Sendable(frames) && TxRun(frames, TX_INIT, log, lo, hi).pc.TxDone?
    ensures WritesIn(log, lo, hi) == WireFrom(frames, 0) && ReadsIn(log, lo, hi) == Toks(Acks(|frames|))
  {
    WireNext(frames, 0, 0);
    SenderSends(frames, log, lo, hi, 0, 0);
  }

  /** A completed receiver that was fed with frames of the right lengths has
      received them, and read and acknowledged nothing else. */
  lemma ReceiverStream(frames: seq<seq<byte>>, buf: seq<byte>, log: seq<Act>, lo: nat, hi: nat, more: seq<byte>)
    requires lo <= hi <= |log| && Sendable(frames) && |buf| == BUF_SIZE
    requires Fed(ReadsIn(log, lo, hi), WireFrom(frames, 0) + more)
    requires RxRun(Lengths(frames), RxInit(buf), log, lo, hi).pc.RxDone?
    ensures RxRun(Lengths(frames), RxInit(buf), log, lo, hi).acc == frames
    ensures ReadsIn(log, lo, hi) == Toks(WireFrom(frames, 0)) && WritesIn(log, lo, hi) == Acks(|frames|)
  {
    WireNext(frames, 0, 0);
    assert START[..0] == [];
    ReceiverReceives(frames, RxInit(buf), log, lo, hi, 0, 0, more);
  }

  // ---------------------------------------------------------------- several exchanges on one connection

  /** m cuts log into one stretch per exchange, from cut number o on. */
  predicate Cuts(log: seq<Act>, m: seq<nat>, o: nat, n: nat) {
    o + n < |m| && (forall k | o <= k <= o + n :: m[k] <= |log|) && (forall k | o <= k < o + n :: m[k] <= m[k + 1])
  }

  lemma {:induction false} CutsOrdered(log: seq<Act>, m: seq<nat>, o: nat, n: nat)
    requires Cuts(log, m, o, n)
    ensures m[o] <= m[o + n]
    decreases n
  {
    if n > 0 {
      CutsOrdered(log, m, o, n - 1);
    }
  }

  /** In stretch o + k the sender of the k-th list of frames completed. */
  ghost predicate DoneSending(fs: seq<seq<seq<byte>>>, log: seq<Act>, m: seq<nat>, o: nat)
    requires Cuts(log, m, o, |fs|)
  {
    forall k: nat | k < |fs| :: Sendable(fs[k]) && TxRun(fs[k], TX_INIT, log, m[o + k], m[o + k + 1]).pc.TxDone?
  }

  /** In stretch o + k a receiver of frames as long as those of the k-th list completed. */
  ghost predicate DoneReceiving(fs: seq<seq<seq<byte>>>, buf: seq<byte>, log: seq<Act>, m: seq<nat>, o: nat)
    requires Cuts(log, m, o, |fs|)
  {
    forall k: nat | k < |fs| :: Sendable(fs[k])
        && RxRun(Lengths(fs[k]), RxInit(buf), log, m[o + k], m[o + k + 1]).pc.RxDone?
  }

  ghost predicate Received(fs: seq<seq<seq<byte>>>, buf: seq<byte>, log: seq<Act>, m: seq<nat>, o: nat)
    requires Cuts(log, m, o, |fs|)
  {
    forall k: nat | k < |fs| :: RxRun(Lengths(fs[k]), RxInit(buf), log, m[o + k], m[o + k + 1]).acc == fs[k]
  }

  function AllWires(fs: seq<seq<seq<byte>>>, k: nat): seq<byte>
    requires k <= |fs|
    decreases |fs| - k
  {
    if k == |fs| then [] else WireFrom(fs[k], 0) + AllWires(fs, k + 1)
  }

  function AllAcks(fs: seq<seq<seq<byte>>>, k: nat): seq<byte>
    requires k <= |fs|
    decreases |fs| - k
  {
    if k == |fs| then [] else Acks(|fs[k]|) + AllAcks(fs, k + 1)
  }

  lemma {:induction false} SendSeries(fs: seq<seq<seq<byte>>>, log: seq<Act>, m: seq<nat>, o: nat, k: nat)
    requires k <= |fs| && Cuts(log, m, o, |fs|) && DoneSending(fs, log, m, o)
    ensures m[o + k] <= m[o + |fs|]
    ensures WritesIn(log, m[o + k], m[o + |fs|]) == AllWires(fs, k)
    ensures ReadsIn(log, m[o + k], m[o + |fs|]) == Toks(AllAcks(fs, k))
    decreases |fs| - k
  {
    if k < |fs| {
      assert Sendable(fs[k]) && TxRun(fs[k], TX_INIT, log, m[o + k], m[o + k + 1]).pc.TxDone?;
      assert m[o + k] <= m[o + k + 1] <= |log| && m[o + |fs|] <= |log|;
      assert AllWires(fs, k) == WireFrom(fs[k], 0) + AllWires(fs, k + 1);
      assert AllAcks(fs, k) == Acks(|fs[k]|) + AllAcks(fs, k + 1);
      hide *;
      SendSeries(fs, log, m, o, k + 1);
      SenderStream(fs[k], log, m[o + k], m[o + k + 1]);
      WritesSplit(log, m[o + k], m[o + k + 1], m[o + |fs|]);
      ReadsSplit(log, m[o + k], m[o + k + 1], m[o + |fs|]);
      ToksAppend(Acks(|fs[k]|), AllAcks(fs, k + 1));
    }
  }

  /** Receivers fed with the frames of all the lists, one after the other. */
  lemma {:induction false} ReceiveSeries(fs: seq<seq<seq<byte>>>, buf: seq<byte>, log: seq<Act>, m: seq<nat>, o: nat,
                                         k: nat, more: seq<byte>)
    requires k <= |fs| && Cuts(log, m, o, |fs|) && DoneReceiving(fs, buf, log, m, o) && |buf| == BUF_SIZE
    requires m[o + k] <= m[o + |fs|] && Fed(ReadsIn(log, m[o + k], m[o + |fs|]), AllWires(fs, k) + more)
    ensures forall j: nat | k <= j < |fs| ::
            RxRun(Lengths(fs[j]), RxInit(buf), log, m[o + j], m[o + j + 1]).acc == fs[j]
    ensures ReadsIn(log, m[o + k], m[o + |fs|]) == Toks(AllWires(fs, k))
    ensures WritesIn(log, m[o + k], m[o + |fs|]) == AllAcks(fs, k)
    decreases |fs| - k
  {
    if k < |fs| {
      CutsOrdered(log, m, o + k + 1, |fs| - k - 1);
      var lo, mid, hi := m[o + k], m[o + k + 1], m[o + |fs|];
      ReadsSplit(log, lo, mid, hi);
      WritesSplit(log, lo, mid, hi);
      var w := AllWires(fs, k + 1) + more;
      assert AllWires(fs, k) + more == WireFrom(fs[k], 0) + w;
      FedFront(ReadsIn(log, lo, mid), ReadsIn(log, mid, hi), WireFrom(fs[k], 0) + w);
      ReceiverStream(fs[k], buf, log, lo, mid, w);
      FedRest(WireFrom(fs[k], 0), ReadsIn(log, mid, hi), w);
      ReceiveSeries(fs, buf, log, m, o, k + 1, more);
      ToksAppend(WireFrom(fs[k], 0), AllWires(fs, k + 1));
    }
  }

  /** Two ends of one connection that change roles. One receives the lists fs and
      then sends gs, the other does the opposite; each reads a prefix of what the
      other wrote, and then perhaps the end. If both complete everything, every
      list arrives as it was sent, whatever the frames contain. */
  lemma RolesReversed(fs: seq<seq<seq<byte>>>, gs: seq<seq<seq<byte>>>, buf: seq<byte>,
                      c: seq<Act>, cm: seq<nat>, s: seq<Act>, sm: seq<nat>)
    requires |buf| == BUF_SIZE
    requires Cuts(c, cm, 0, |fs|) && Cuts(c, cm, |fs|, |gs|) && Cuts(s, sm, 0, |fs|) && Cuts(s, sm, |fs|, |gs|)
    requires DoneReceiving(fs, buf, c, cm, 0) && DoneSending(gs, c, cm, |fs|)
    requires DoneSending(fs, s, sm, 0) && DoneReceiving(gs, buf, s, sm, |fs|)
    requires cm[0] <= cm[|fs| + |gs|] && sm[0] <= sm[|fs| + |gs|]
    requires Fed(ReadsIn(c, cm[0], cm[|fs| + |gs|]), WritesIn(s, sm[0], sm[|fs| + |gs|]))
    requires Fed(ReadsIn(s, sm[0], sm[|fs| + |gs|]), WritesIn(c, cm[0], cm[|fs| + |gs|]))
    ensures Received(fs, buf, c, cm, 0) && Received(gs, buf, s, sm, |fs|)
  {
    hide ReadsIn, WritesIn, AllWires, AllAcks, Fed, RxRun, TxRun, Sendable;
    var n, e := |fs|, |fs| + |gs|;
    CutsOrdered(c, cm, 0, n);
    CutsOrdered(c, cm, n, |gs|);
    CutsOrdered(s, sm, 0, n);
    CutsOrdered(s, sm, n, |gs|);
    SendSeries(fs, s, sm, 0, 0);
    SendSeries(gs, c, cm, n, 0);
    WritesSplit(s, sm[0], sm[n], sm[e]);
    ReadsSplit(c, cm[0], cm[n], cm[e]);
    FedFront(ReadsIn(c, cm[0], cm[n]), ReadsIn(c, cm[n], cm[e]), WritesIn(s, sm[0], sm[e]));
    ReceiveSeries(fs, buf, c, cm, 0, 0, WritesIn(s, sm[n], sm[e]));
    WritesSplit(c, cm[0], cm[n], cm[e]);
    ReadsSplit(s, sm[0], sm[n], sm[e]);
    FedRest(AllAcks(fs, 0), ReadsIn(s, sm[n], sm[e]), AllWires(gs, 0));
    assert AllWires(gs, 0) + [] == AllWires(gs, 0);
    ReceiveSeries(gs, buf, s, sm, n, 0, []);
  }
}
