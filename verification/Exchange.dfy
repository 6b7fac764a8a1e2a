/** Whole runs of the stop-and-wait exchange. */
module Exchange {
  import opened Bytes
  import opened Channel
  import opened Framing
  import opened Reception
  import opened Transmission
  import opened Protocol

  /** The events can happen one after the other. */
  ghost predicate Legal(frames: seq<seq<byte>>, s: Sys, evs: seq<Ev>)
    decreases |evs|, 0
  {
    evs == [] || (Legal(frames, s, evs[..|evs| - 1])
        && Allowed(frames, Final(frames, s, evs[..|evs| - 1]), evs[|evs| - 1]))
  }

  ghost function Final(frames: seq<seq<byte>>, s: Sys, evs: seq<Ev>): Sys
    requires Legal(frames, s, evs)
    decreases |evs|, 1
  {
    if evs == [] then s else Apply(frames, Final(frames, s, evs[..|evs| - 1]), evs[|evs| - 1])
  }

  lemma {:induction false} InvAlways(frames: seq<seq<byte>>, s: Sys, evs: seq<Ev>)
    requires Inv(frames, s) && Legal(frames, s, evs)
    ensures Inv(frames, Final(frames, s, evs))
    decreases |evs|
  {
    if evs != [] {
      InvAlways(frames, s, evs[..|evs| - 1]);
      InvStep(frames, Final(frames, s, evs[..|evs| - 1]), evs[|evs| - 1]);
    }
  }

  // ---------------------------------------------------------------- agreement

  function AcksReceived(s: Sys): nat {
    s.tx.i
  }

  function FramesSent(s: Sys): nat {
    s.tx.i + if s.tx.pc.Awaiting? || s.tx.pc.TxFail? then 1 else 0
  }

  function FramesAccepted(s: Sys): nat {
    |s.rx.acc| + if s.rx.pc.Acking? then 1 else 0
  }

  /** Whatever is cut, and whenever: the sender is at most one frame ahead of
      what it has been told, the receiver stored a prefix of the frames, and a
      sender that is done has had every frame stored, where storing is one step
      with the last write of the acknowledgement. */
  lemma Agreement(frames: seq<seq<byte>>, buf: seq<byte>, retries: nat, evs: seq<Ev>)
    requires Sendable(frames) && |buf| == BUF_SIZE && Legal(frames, Start(buf, retries), evs)
    ensures var s := Final(frames, Start(buf, retries), evs);
      && AcksReceived(s) <= |s.rx.acc| <= FramesAccepted(s) <= FramesSent(s) <= AcksReceived(s) + 1
      && s.rx.acc <= frames
      && (s.rx.pc.Acking? ==> s.rx.acc < frames && frames[|s.rx.acc|] <= s.rx.buf)
      && (s.tx.pc.TxDone? ==> s.rx.acc == frames && s.rx.pc == RxDone)
      && !s.tx.pc.TxBad? && !s.rx.pc.RxBad?
  {
    InvStart(frames, buf, retries);
    InvAlways(frames, Start(buf, retries), evs);
  }

  /** When both ends are done, everything arrived and nothing is left over. */
  lemma Transfer(frames: seq<seq<byte>>, buf: seq<byte>, retries: nat, evs: seq<Ev>)
    requires Sendable(frames) && |buf| == BUF_SIZE && Legal(frames, Start(buf, retries), evs)
    ensures var s := Final(frames, Start(buf, retries), evs);
      s.tx.pc.TxDone? && s.rx.pc.RxDone? ==> s.rx.acc == frames && s.fwd == [] && s.bwd == []
  {
    InvStart(frames, buf, retries);
    InvAlways(frames, Start(buf, retries), evs);
  }

  // ---------------------------------------------------------------- the actions of one end

  function TxActs(evs: seq<Ev>): seq<Act> {
    if evs == [] then []
    else TxActs(evs[..|evs| - 1]) + if evs[|evs| - 1].T? then [evs[|evs| - 1].act] else []
  }

  function RxActs(evs: seq<Ev>): seq<Act> {
    if evs == [] then []
    else RxActs(evs[..|evs| - 1]) + if evs[|evs| - 1].R? then [evs[|evs| - 1].act] else []
  }

  /** In every run each end does what its own automaton does on its own actions. */
  lemma {:induction false} ProjectsTx(frames: seq<seq<byte>>, s: Sys, evs: seq<Ev>)
    requires Legal(frames, s, evs)
    ensures Final(frames, s, evs).tx == TxRun(frames, s.tx, TxActs(evs), 0, |TxActs(evs)|)
    decreases |evs|
  {
    if evs != [] {
      var pre, ev := evs[..|evs| - 1], evs[|evs| - 1];
      ProjectsTx(frames, s, pre);
      TxSplit(frames, s.tx, TxActs(pre), TxActs(evs), 0, |TxActs(pre)|, |TxActs(evs)|);
    }
  }

  lemma {:induction false} ProjectsRx(frames: seq<seq<byte>>, s: Sys, evs: seq<Ev>)
    requires Legal(frames, s, evs)
    ensures Final(frames, s, evs).rx == RxRun(Lengths(frames), s.rx, RxActs(evs), 0, |RxActs(evs)|)
    decreases |evs|
  {
    if evs != [] {
      var pre, ev := evs[..|evs| - 1], evs[|evs| - 1];
      ProjectsRx(frames, s, pre);
      RxSplit(Lengths(frames), s.rx, RxActs(pre), RxActs(evs), 0, |RxActs(pre)|, |RxActs(evs)|);
    }
  }

  /** The sender's and the receiver's logs, interleaved over reliable or cut
      channels in any way: if both logs end in success, all frames were stored. */
  lemma InterleavedTransfer(frames: seq<seq<byte>>, buf: seq<byte>, retries: nat, evs: seq<Ev>, txLog: seq<Act>,
                            rxLog: seq<Act>)
    requires Sendable(frames) && |buf| == BUF_SIZE && Legal(frames, Start(buf, retries), evs)
    requires txLog == TxActs(evs) && rxLog == RxActs(evs)
    ensures var tx, rx := TxRun(frames, TX_INIT, txLog, 0, |txLog|),
            RxRun(Lengths(frames), RxInit(buf), rxLog, 0, |rxLog|);
      && (tx.pc.TxDone? ==>
            var s := Final(frames, Start(buf, retries), evs); rx.pc.RxDone? && s.fwd == [] == s.bwd)
      && (rx.pc.RxDone? ==> rx.acc == frames)
      && rx.acc <= frames
      && tx.i <= |rx.acc| <= tx.i + 1
  {
    ProjectsTx(frames, Start(buf, retries), evs);
    ProjectsRx(frames, Start(buf, retries), evs);
    Agreement(frames, buf, retries, evs);
    InvStart(frames, buf, retries);
    InvAlways(frames, Start(buf, retries), evs);
  }

  // ---------------------------------------------------------------- progress

  function WireBytes(frames: seq<seq<byte>>, i: nat): nat
    requires i <= |frames|
    decreases |frames| - i
  {
    if i == |frames| then 0 else |frames[i]| + 8 + WireBytes(frames, i + 1)
  }

  function TxWriteLeft(frames: seq<seq<byte>>, tx: Tx): int
    requires tx.i <= |frames|
  {
    if tx.pc.Sending? then WireBytes(frames, tx.i) - tx.pc.k
    else if tx.i == |frames| then 0 else WireBytes(frames, tx.i + 1)
  }

  function TxReadLeft(frames: seq<seq<byte>>, tx: Tx): int {
    3 * (|frames| - tx.i) - if tx.pc.Awaiting? then |tx.pc.got| else 0
  }

  function RxReadLeft(frames: seq<seq<byte>>, rx: Rx): int
    requires |rx.acc| <= |frames|
  {
    var j := |rx.acc|;
    if j == |frames| then 0
    else if rx.pc.Receiving? then WireBytes(frames, j) - Progress(rx.pc.ph, |frames[j]|)
    else WireBytes(frames, j + 1)
  }

  function RxWriteLeft(frames: seq<seq<byte>>, rx: Rx): int {
    3 * (|frames| - |rx.acc|) - if rx.pc.Acking? then rx.pc.sent else 0
  }

  /** The bytes still to be written and read on either side, and the retries. */
  function Work(frames: seq<seq<byte>>, s: Sys): int
    requires s.tx.i <= |frames| && |s.rx.acc| <= |frames|
  {
    TxWriteLeft(frames, s.tx) + TxReadLeft(frames, s.tx) + RxReadLeft(frames, s.rx)
        + RxWriteLeft(frames, s.rx) + s.retries
  }

  predicate Uncut(s: Sys) {
    s.fwdUp && s.bwdUp
  }

  predicate Completed(s: Sys) {
    s.tx.pc == TxDone && s.rx.pc == RxDone
  }

  /** A step of one end that can be taken in an uncut, uncompleted state in which
      the sender has not given up. */
  ghost function NextEvent(frames: seq<seq<byte>>, s: Sys): Ev
    requires Inv(frames, s) && Uncut(s) && !s.stopped && !Completed(s)
  {
    if s.rx.pc.Acking? then R(Wr(ACK[s.rx.pc.sent]))
    else if s.fwd != [] then R(Rd(Byte(s.fwd[0])))
    else if s.bwd != [] then T(Rd(Byte(s.bwd[0])))
    else if s.tx.pc.Sending? && s.tx.i < |frames| && s.tx.pc.k < |frames[s.tx.i]| + 8 then
      T(Wr(Wire(frames[s.tx.i])[s.tx.pc.k]))
    else Refused
  }

  predicate IsStep(ev: Ev) {
    ev.T? || ev.R?
  }

  lemma NoDeadlock(frames: seq<seq<byte>>, s: Sys)
    requires Inv(frames, s) && Uncut(s) && !s.stopped && !Completed(s)
    ensures IsStep(NextEvent(frames, s)) && Allowed(frames, s, NextEvent(frames, s))
  {
    var i, j := s.tx.i, |s.rx.acc|;
    if Behind(s, j) && s.tx.pc.Awaiting? {
      assert |s.tx.pc.got| + |s.bwd| == 3;
    }
    if s.rx.pc.Receiving? && i == j {
      var p := frames[j];
      var c := Progress(s.rx.pc.ph, |p|);
      assert OnTrack(s.rx.pc.ph, s.rx.buf, p) && InTransit(s, p, c);
      if s.fwd != [] {
        assert s.fwd[0] == Wire(p)[c];
        RxOnByte(frames, s.rx, c);
      }
    }
  }

  predicate Measured(frames: seq<seq<byte>>, s: Sys) {
    s.tx.i <= |frames| && |s.rx.acc| <= |frames|
  }

  lemma TxWork(frames: seq<seq<byte>>, tx: Tx, act: Act)
    requires tx.i < |frames| && !TxStep(frames, tx, act).pc.TxBad? && !TxStep(frames, tx, act).pc.TxFail?
    requires tx.pc.Awaiting? ==> |tx.pc.got| < 3
    ensures var tx' := TxStep(frames, tx, act);
      && tx'.i <= |frames|
      && TxWriteLeft(frames, tx') + TxReadLeft(frames, tx') == TxWriteLeft(frames, tx) + TxReadLeft(frames, tx) - 1
  {
  }

  lemma RxReadWork(frames: seq<seq<byte>>, s: Sys)
    requires Inv(frames, s) && Uncut(s) && s.fwd != [] && s.rx.pc.Receiving?
    ensures var rx' := RxStep(Lengths(frames), s.rx, Rd(Byte(s.fwd[0])));
      && |rx'.acc| <= |frames|
      && RxReadLeft(frames, rx') + RxWriteLeft(frames, rx') == RxReadLeft(frames, s.rx) + RxWriteLeft(frames, s.rx) - 1
  {
    var j := |s.rx.acc|;
    var p := frames[j];
    var c := Progress(s.rx.pc.ph, |p|);
    assert OnTrack(s.rx.pc.ph, s.rx.buf, p) && InTransit(s, p, c);
    assert s.fwd[0] == Wire(p)[c];
    RxOnByte(frames, s.rx, c);
    if c + 1 < |p| + 8 {
      PhaseProgress(p, c + 1);
    }
  }

  lemma RxWriteWork(frames: seq<seq<byte>>, rx: Rx, b: byte)
    requires |rx.acc| < |frames| && rx.pc.Acking? && !RxStep(Lengths(frames), rx, Wr(b)).pc.RxBad?
    ensures var rx' := RxStep(Lengths(frames), rx, Wr(b));
      && |rx'.acc| <= |frames|
      && RxReadLeft(frames, rx') + RxWriteLeft(frames, rx') == RxReadLeft(frames, rx) + RxWriteLeft(frames, rx) - 1
  {
  }

  /** Every event of an uncut run does one unit of the work, except that the
      sender gives up. */
  lemma WorkStep(frames: seq<seq<byte>>, s: Sys, ev: Ev)
    requires Inv(frames, s) && Uncut(s) && Allowed(frames, s, ev) && !ev.CutFwd? && !ev.CutBwd?
    ensures var s' := Apply(frames, s, ev);
      Measured(frames, s') && Work(frames, s') == Work(frames, s) - if ev.Refused? then 0 else 1
  {
    match ev
    case T(act) =>
      InvStep(frames, s, ev);
      TxWork(frames, s.tx, act);
    case R(Wr(b)) => RxWriteWork(frames, s.rx, b);
    case R(Rd(_)) => RxReadWork(frames, s);
    case SenderRetry =>
    case ReceiverRetry =>
    case Refused =>
  }

  predicate NoCuts(evs: seq<Ev>) {
    forall i | 0 <= i < |evs| :: !evs[i].CutFwd? && !evs[i].CutBwd?
  }

  /** Some write of a frame was not taken whole. */
  predicate HasRefusal(evs: seq<Ev>) {
    exists i :: 0 <= i < |evs| && evs[i].Refused?
  }

  lemma RefusalSplit(evs: seq<Ev>)
    requires evs != []
    ensures HasRefusal(evs) <==> HasRefusal(evs[..|evs| - 1]) || evs[|evs| - 1].Refused?
  {
    var pre := evs[..|evs| - 1];
    if i :| 0 <= i < |evs| && evs[i].Refused? {
      assert i < |evs| - 1 ==> pre[i].Refused?;
    }
  }

  lemma {:induction false} UncutRun(frames: seq<seq<byte>>, s: Sys, evs: seq<Ev>)
    requires Inv(frames, s) && Uncut(s) && !s.stopped && Legal(frames, s, evs) && NoCuts(evs)
    ensures var s' := Final(frames, s, evs);
      && Inv(frames, s') && Uncut(s') && (s'.stopped <==> HasRefusal(evs)) && (s'.stopped ==> s'.tx.pc.Sending?)
      && Work(frames, s') == Work(frames, s) - |evs| + if s'.stopped then 1 else 0
    decreases |evs|
  {
    if evs != [] {
      var pre, ev := evs[..|evs| - 1], evs[|evs| - 1];
      UncutRun(frames, s, pre);
      RefusalSplit(evs);
      var mid := Final(frames, s, pre);
      hide Inv, Work, HasRefusal;
      WorkStep(frames, mid, ev);
      InvStep(frames, mid, ev);
    }
  }

  lemma WorkIsNat(frames: seq<seq<byte>>, s: Sys)
    requires Inv(frames, s) && Uncut(s)
    ensures Work(frames, s) >= 0 && (Work(frames, s) == 0 ==> Completed(s))
    ensures Completed(s) ==> Work(frames, s) == s.retries
  {
    var i, j := s.tx.i, |s.rx.acc|;
    if s.rx.pc.Receiving? && i == j {
      assert OnTrack(s.rx.pc.ph, s.rx.buf, frames[j]);
    }
  }

  /** As long as nothing is cut, no acknowledgement is missed and no frame rejected. */
  lemma NeitherFails(frames: seq<seq<byte>>, s: Sys)
    requires Inv(frames, s) && Uncut(s)
    ensures !s.tx.pc.TxFail? && !s.rx.pc.RxFail?
  {
  }

  /** Without a cut every run is at most one longer than the work to be done, and
      neither end fails. Until a write of a frame is refused, both ends are done or
      one of them can take a step; when both are done all frames were stored. */
  lemma AlwaysCompletes(frames: seq<seq<byte>>, buf: seq<byte>, retries: nat, evs: seq<Ev>)
    requires Sendable(frames) && |buf| == BUF_SIZE && Legal(frames, Start(buf, retries), evs) && NoCuts(evs)
    ensures var s0 := Start(buf, retries); var s := Final(frames, s0, evs);
      && Work(frames, s0) == 2 * WireBytes(frames, 0) + 6 * |frames| + retries
      && |evs| <= Work(frames, s0) + (if HasRefusal(evs) then 1 else 0)
      && !s.tx.pc.TxFail? && !s.rx.pc.RxFail?
      && (HasRefusal(evs) ==> s.tx.pc.Sending? && s.stopped)
      && (!HasRefusal(evs) ==>
            Completed(s) || (NextEvent.requires(frames, s) && IsStep(NextEvent(frames, s))
                && Allowed(frames, s, NextEvent(frames, s))))
      && (Completed(s) ==> s.rx.acc == frames && s.fwd == [] && s.bwd == [])
  {
    var s0 := Start(buf, retries);
    var s := Final(frames, s0, evs);
    InvStart(frames, buf, retries);
    UncutRun(frames, s0, evs);
    WorkIsNat(frames, s);
    NeitherFails(frames, s);
    if !Completed(s) && !s.stopped {
      NoDeadlock(frames, s);
    }
  }

  /** Nothing but a cut can happen any more. */
  ghost predicate Stuck(frames: seq<seq<byte>>, s: Sys) {
    forall ev | Allowed(frames, s, ev) :: ev.CutFwd? || ev.CutBwd?
  }

  /** An uncut run that cannot go on has transferred everything if and only if
      every write of a frame was taken whole. */
  lemma CompletesExactly(frames: seq<seq<byte>>, buf: seq<byte>, retries: nat, evs: seq<Ev>)
    requires Sendable(frames) && |buf| == BUF_SIZE && Legal(frames, Start(buf, retries), evs) && NoCuts(evs)
    requires Stuck(frames, Final(frames, Start(buf, retries), evs))
    ensures var s := Final(frames, Start(buf, retries), evs);
      && (Completed(s) <==> !HasRefusal(evs))
      && (Completed(s) <==> s.tx.pc.TxDone?)
  {
    AlwaysCompletes(frames, buf, retries, evs);
    Agreement(frames, buf, retries, evs);
  }
}
