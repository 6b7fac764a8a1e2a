/** The stop-and-wait exchange: the sender's and the receiver's control as
    automata over their own actions, and the system they form over two byte
    channels that may be cut at any time. */
module Protocol {
  import opened Bytes
  import opened Channel
  import opened Framing
  import opened Reception
  import opened Transmission

  const BUF_SIZE: nat := 256

  // ---------------------------------------------------------------- the sender

  datatype TxPc = Sending(k: nat) | Awaiting(got: seq<byte>) | TxDone | TxFail | TxBad

  /** i frames have been acknowledged. */
  datatype Tx = Tx(pc: TxPc, i: nat)

  const TX_INIT := Tx(Sending(0), 0)

  function TxStep(frames: seq<seq<byte>>, tx: Tx, act: Act): Tx {
    if tx.i >= |frames| then tx.(pc := TxBad)
    else
      match (tx.pc, act)
      case (Sending(k), Wr(b)) =>
        var w := Wire(frames[tx.i]);
        if k >= |w| || w[k] != b then tx.(pc := TxBad)
        else tx.(pc := if k + 1 == |w| then Awaiting([]) else Sending(k + 1))
      case (Awaiting(got), Rd(Byte(b))) =>
        if |got| + 1 < 3 then tx.(pc := Awaiting(got + [b]))
        else if got + [b] != ACK then tx.(pc := TxFail)
        else Tx(if tx.i + 1 == |frames| then TxDone else Sending(0), tx.i + 1)
      case (Awaiting(got), Rd(Break)) => tx.(pc := TxFail)
      case _ => tx.(pc := TxBad)
  }

  /** The sender after the actions log[lo..hi]. */
  function TxRun(frames: seq<seq<byte>>, tx: Tx, log: seq<Act>, lo: nat, hi: nat): Tx
    requires lo <= hi <= |log|
    decreases hi - lo
  {
    if lo == hi then tx else TxRun(frames, TxStep(frames, tx, log[lo]), log, lo + 1, hi)
  }

  // ---------------------------------------------------------------- the receiver

  datatype RxPc = Receiving(ph: Phase) | Acking(sent: nat) | RxDone | RxFail | RxBad

  /** acc holds the payloads that were accepted, acknowledged and stored. */
  datatype Rx = Rx(pc: RxPc, buf: seq<byte>, acc: seq<seq<byte>>)

  function RxInit(buf: seq<byte>): Rx {
    Rx(Receiving(Hunt([])), buf, [])
  }

  /** One action. A frame counts as stored with the last byte of its acknowledgement:
      that write and the copy out of the receive buffer, which the program makes
      right after it, are taken as one step. */
  function RxStep(lens: seq<nat>, rx: Rx, act: Act): Rx {
    var i := |rx.acc|;
    if i >= |lens| || lens[i] > |rx.buf| then rx.(pc := RxBad)
    else
      match (rx.pc, act)
      case (Receiving(ph), Rd(tok)) =>
        if !ph.Ok(lens[i]) || ph.Final() then rx.(pc := RxBad)
        else
          var st := Step(Rec(ph, rx.buf), lens[i], tok);
          var pc := if st.ph.Accepted? then Acking(0) else if st.ph.Rejected? then RxFail else Receiving(st.ph);
          rx.(pc := pc, buf := st.buf)
      case (Acking(k), Wr(b)) =>
        if k >= 3 || ACK[k] != b then rx.(pc := RxBad)
        else if k < 2 then rx.(pc := Acking(k + 1))
        else Rx(if i + 1 == |lens| then RxDone else Receiving(Hunt([])), rx.buf, rx.acc + [rx.buf[..lens[i]]])
      case _ => rx.(pc := RxBad)
  }

  function RxRun(lens: seq<nat>, rx: Rx, log: seq<Act>, lo: nat, hi: nat): Rx
    requires lo <= hi <= |log|
    decreases hi - lo
  {
    if lo == hi then rx else RxRun(lens, RxStep(lens, rx, log[lo]), log, lo + 1, hi)
  }

  /** A run, split after l0: what comes later does not change what came before. */
  lemma {:induction false} TxSplit(frames: seq<seq<byte>>, tx: Tx, l0: seq<Act>, log: seq<Act>, lo: nat, mid: nat,
                                   hi: nat)
    requires lo <= mid <= hi <= |log| && mid <= |l0| && forall i | lo <= i < mid :: l0[i] == log[i]
    ensures TxRun(frames, tx, log, lo, hi) == TxRun(frames, TxRun(frames, tx, l0, lo, mid), log, mid, hi)
    decreases mid - lo
  {
    if lo < mid {
      TxSplit(frames, TxStep(frames, tx, log[lo]), l0, log, lo + 1, mid, hi);
    }
  }

  lemma {:induction false} RxSplit(lens: seq<nat>, rx: Rx, l0: seq<Act>, log: seq<Act>, lo: nat, mid: nat, hi: nat)
    requires lo <= mid <= hi <= |log| && mid <= |l0| && forall i | lo <= i < mid :: l0[i] == log[i]
    ensures RxRun(lens, rx, log, lo, hi) == RxRun(lens, RxRun(lens, rx, l0, lo, mid), log, mid, hi)
    decreases mid - lo
  {
    if lo < mid {
      RxSplit(lens, RxStep(lens, rx, log[lo]), l0, log, lo + 1, mid, hi);
    }
  }

  // ---------------------------------------------------------------- the system

  /** Besides actions and cuts: a reader, or the writer of an acknowledgement, is
      asked to try again; and a write of a frame is not taken whole, on which the
      sender, who does not try again, gives up. */
  datatype Ev =
    | T(act: Act)
    | R(act: Act)
    | CutFwd(keep: nat)
    | CutBwd(keep: nat)
    | SenderRetry
    | ReceiverRetry
    | Refused

  /** fwd carries frames, bwd acknowledgements. Bytes written to a channel that
      is down are lost; a reader gets what was still in transit, then the end.
      stopped says that the sender has given up in the middle of a frame. */
  datatype Sys = Sys(tx: Tx, rx: Rx, fwd: seq<byte>, bwd: seq<byte>, fwdUp: bool, bwdUp: bool, retries: nat,
                     stopped: bool)

  function Start(buf: seq<byte>, retries: nat): Sys {
    Sys(TX_INIT, RxInit(buf), [], [], true, true, retries, false)
  }

  predicate Readable(pipe: seq<byte>, up: bool, tok: Tok) {
    match tok
    case Byte(b) => pipe != [] && pipe[0] == b
    case Break => pipe == [] && !up
  }

  predicate Allowed(frames: seq<seq<byte>>, s: Sys, ev: Ev) {
    match ev
    case T(act) => !s.stopped && !TxStep(frames, s.tx, act).pc.TxBad? && (act.Rd? ==> Readable(s.bwd, s.bwdUp, act.tok))
    case R(act) => !RxStep(Lengths(frames), s.rx, act).pc.RxBad? && (act.Rd? ==> Readable(s.fwd, s.fwdUp, act.tok))
    case CutFwd(n) => s.fwdUp && n <= |s.fwd|
    case CutBwd(n) => s.bwdUp && n <= |s.bwd|
    case SenderRetry => !s.stopped && s.tx.pc.Awaiting? && s.retries > 0
    case ReceiverRetry => (s.rx.pc.Receiving? || s.rx.pc.Acking?) && s.retries > 0
    case Refused => !s.stopped && s.tx.pc.Sending?
  }

  function Drained(pipe: seq<byte>): seq<byte> {
    if pipe == [] then [] else pipe[1..]
  }

  function Carried(pipe: seq<byte>, up: bool, b: byte): seq<byte> {
    if up then pipe + [b] else pipe
  }

  function Apply(frames: seq<seq<byte>>, s: Sys, ev: Ev): Sys
    requires Allowed(frames, s, ev)
  {
    match ev
    case T(Wr(b)) => s.(tx := TxStep(frames, s.tx, ev.act), fwd := Carried(s.fwd, s.fwdUp, b))
    case T(Rd(_)) => s.(tx := TxStep(frames, s.tx, ev.act), bwd := Drained(s.bwd))
    case R(Wr(b)) => s.(rx := RxStep(Lengths(frames), s.rx, ev.act), bwd := Carried(s.bwd, s.bwdUp, b))
    case R(Rd(_)) => s.(rx := RxStep(Lengths(frames), s.rx, ev.act), fwd := Drained(s.fwd))
    case CutFwd(n) => s.(fwd := s.fwd[..n], fwdUp := false)
    case CutBwd(n) => s.(bwd := s.bwd[..n], bwdUp := false)
    case SenderRetry => s.(retries := s.retries - 1)
    case ReceiverRetry => s.(retries := s.retries - 1)
    case Refused => s.(stopped := true)
  }

  // ---------------------------------------------------------------- the invariant

  ghost predicate Sendable(frames: seq<seq<byte>>) {
    |frames| > 0 && forall i | 0 <= i < |frames| :: 1 <= |frames[i]| <= 255
  }

  /** The comparison buffer after k bytes of the stop sequence. */
  function HalfStop(k: nat): (sb: seq<byte>)
    requires k <= 4
    ensures |sb| == 4 && forall i | 0 <= i < 4 :: sb[i] == if i < k then 0xFF else 0x55
  {
    STOP[..k] + START[k..]
  }

  /** The receiver's phase after the first c bytes of the frame with payload p. */
  function PhaseAt(p: seq<byte>, c: nat): (ph: Phase)
    requires c < |p| + 8
    ensures ph.Ok(|p|) && !ph.Final()
  {
    if c < 4 then Hunt(START[..c])
    else if c < 4 + |p| then Pay(c - 4)
    else Stop(c - 4 - |p|, HalfStop(c - 4 - |p|))
  }

  /** The number of bytes of the frame that brought the receiver here. */
  function Progress(ph: Phase, len: nat): nat {
    match ph
    case Hunt(win) => |win|
    case Pay(got) => 4 + got
    case Stop(have, _) => 4 + len + have
    case _ => len + 8
  }

  /** The part of the payload stored after c bytes of the frame. */
  function Stored(p: seq<byte>, c: nat): (d: seq<byte>)
    ensures |d| <= |p|
  {
    if c < 4 then [] else if c < 4 + |p| then p[..c - 4] else p
  }

  ghost predicate OnTrack(ph: Phase, buf: seq<byte>, p: seq<byte>) {
    var c := Progress(ph, |p|);
    && |p| <= |buf|
    && c < |p| + 8 && ph == PhaseAt(p, c)
    && Stored(p, c) <= buf
  }

  /** A frame broke off: the receiver compares its own start sequence with STOP. */
  predicate Derailed(s: Sys) {
    s.rx.pc == Receiving(Stop(0, START)) && s.fwd == [] && !s.fwdUp
  }

  /** How many bytes of its current frame, with payload p, the sender has written. */
  function Written(tx: Tx, p: seq<byte>): nat {
    if tx.pc.Sending? then tx.pc.k else |p| + 8
  }

  /** The sender is busy with the frame p the receiver waits for. */
  ghost predicate MidFrame(s: Sys, p: seq<byte>) {
    && s.bwd == []
    && match s.tx.pc
       case Sending(k) => k < |p| + 8
       case Awaiting(got) => got == []
       case TxFail => !s.bwdUp
       case _ => false
  }

  /** The sender has had, or is about to have, the first n bytes of the ack. */
  ghost predicate AckInTransit(s: Sys, n: nat)
    requires n <= 3
  {
    match s.tx.pc
    case Awaiting(got) => |got| < 3 && got + s.bwd <= ACK[..n] && (s.bwdUp ==> got + s.bwd == ACK[..n])
    case TxFail => s.bwd == [] && !s.bwdUp
    case _ => false
  }

  /** The channel holds what the sender wrote of p and the receiver has not read. */
  ghost predicate InTransit(s: Sys, p: seq<byte>, c: nat) {
    && c + |s.fwd| <= Written(s.tx, p) <= |p| + 8
    && s.fwd == Wire(p)[c..c + |s.fwd|]
    && (s.fwdUp ==> c + |s.fwd| == Written(s.tx, p))
  }

  /** The receiver's view of the frame p under way. */
  ghost predicate Midway(s: Sys, ph: Phase, p: seq<byte>) {
    (OnTrack(ph, s.rx.buf, p) && InTransit(s, p, Progress(ph, |p|))) || Derailed(s)
  }

  ghost predicate Behind(s: Sys, j: nat) {
    s.tx.i + 1 == j && s.fwd == [] && AckInTransit(s, 3)
  }

  ghost predicate Inv(frames: seq<seq<byte>>, s: Sys)
  {
    var i, j := s.tx.i, |s.rx.acc|;
    && Sendable(frames)
    && i <= |frames| && j <= |frames| && s.rx.acc == frames[..j] && |s.rx.buf| == BUF_SIZE
    && match s.rx.pc
       case Receiving(ph) =>
         && j < |frames|
         && ((Behind(s, j) && ph == Hunt([])) || (i == j && MidFrame(s, frames[j]) && Midway(s, ph, frames[j])))
       case RxFail =>
         j < |frames| && s.fwd == [] && !s.fwdUp && (Behind(s, j) || (i == j && MidFrame(s, frames[j])))
       case Acking(k) =>
         j < |frames| && k < 3 && i == j && s.fwd == [] && AckInTransit(s, k) && frames[j] <= s.rx.buf
       case RxDone =>
         j == |frames| && s.fwd == [] && (Behind(s, j) || (i == j && s.tx.pc == TxDone && s.bwd == []))
       case RxBad => false
  }
  lemma InvStart(frames: seq<seq<byte>>, buf: seq<byte>, retries: nat)
    requires Sendable(frames) && |buf| == BUF_SIZE
    ensures Inv(frames, Start(buf, retries))
  {
  }

  // ---------------------------------------------------------------- one step

  lemma WireAt(p: seq<byte>, c: nat)
    requires c < |p| + 8
    ensures Wire(p)[c] == if c < 4 then 0x55 else if c < 4 + |p| then p[c - 4] else 0xFF
  {
  }

  lemma HuntPhase(p: seq<byte>, c: nat, buf: seq<byte>)
    requires 1 <= |p| <= |buf| && c < 4
    ensures var st := Step(Rec(PhaseAt(p, c), buf), |p|, Byte(0x55)); st.ph == PhaseAt(p, c + 1) && st.buf == buf
  {
    assert START[..c] + [0x55] == if c < 3 then START[..c + 1] else START;
  }

  lemma PayPhase(p: seq<byte>, c: nat, buf: seq<byte>)
    requires 1 <= |p| <= |buf| && 4 <= c < 4 + |p| && Stored(p, c) <= buf
    ensures var st := Step(Rec(PhaseAt(p, c), buf), |p|, Byte(p[c - 4]));
      st.ph == PhaseAt(p, c + 1) && Stored(p, c + 1) <= st.buf
  {
    var k := c - 4;
    assert p[..k] == buf[..k];
    assert p[..k + 1] == p[..k] + [p[k]];
    assert buf[k := p[k]][..k + 1] == buf[..k] + [p[k]];
    assert Stored(p, c + 1) == p[..k + 1];
    assert STOP[..0] + START[0..] == START;
  }

  lemma StopPhase(p: seq<byte>, c: nat, buf: seq<byte>)
    requires 1 <= |p| <= |buf| && 4 + |p| <= c < 8 + |p|
    ensures var st := Step(Rec(PhaseAt(p, c), buf), |p|, Byte(0xFF));
      st.buf == buf && st.ph == if c + 1 < |p| + 8 then PhaseAt(p, c + 1) else Accepted
  {
    var k := c - 4 - |p|;
    hide HalfStop;
    assert HalfStop(k)[k := 0xFF] == HalfStop(k + 1);
    assert k == 3 ==> HalfStop(4) == STOP;
  }

  /** Every byte of a frame takes the receiver one place further in it. */
  lemma PhaseStep(p: seq<byte>, c: nat, buf: seq<byte>)
    requires 1 <= |p| <= |buf| && c < |p| + 8 && Stored(p, c) <= buf
    ensures var st := Step(Rec(PhaseAt(p, c), buf), |p|, Byte(Wire(p)[c]));
      if c + 1 < |p| + 8 then st.ph == PhaseAt(p, c + 1) && Stored(p, c + 1) <= st.buf
      else st.ph == Accepted && p <= st.buf
  {
    WireAt(p, c);
    hide PhaseAt, Step, Wire;
    if c < 4 {
      HuntPhase(p, c, buf);
      assert p[..0] == [];
    } else if c < 4 + |p| {
      PayPhase(p, c, buf);
    } else {
      StopPhase(p, c, buf);
    }
  }

  lemma PhaseProgress(p: seq<byte>, c: nat)
    requires 1 <= |p| && c < |p| + 8
    ensures Progress(PhaseAt(p, c), |p|) == c
  {
  }

  lemma MoreTransit(s: Sys, s': Sys, p: seq<byte>, c: nat, k: nat)
    requires InTransit(s, p, c) && k < |p| + 8 && Written(s.tx, p) == k && Written(s'.tx, p) == k + 1
    requires s.fwdUp && s'.fwdUp && s'.fwd == s.fwd + [Wire(p)[k]]
    ensures InTransit(s', p, c)
  {
    assert Wire(p)[c..k] + [Wire(p)[k]] == Wire(p)[c..k + 1];
  }

  lemma KeepTxWrite(frames: seq<seq<byte>>, s: Sys, b: byte)
    requires Inv(frames, s) && Allowed(frames, s, T(Wr(b)))
    ensures Inv(frames, Apply(frames, s, T(Wr(b))))
  {
    var p, k := frames[s.tx.i], s.tx.pc.k;
    var s' := Apply(frames, s, T(Wr(b)));
    assert s.tx.i == |s.rx.acc| && MidFrame(s, p) && MidFrame(s', p);
    assert b == Wire(p)[k] && Written(s.tx, p) == k && Written(s'.tx, p) == k + 1;
    if s.rx.pc.Receiving? && s.fwdUp {
      assert !Derailed(s) && Midway(s, s.rx.pc.ph, p);
      MoreTransit(s, s', p, Progress(s.rx.pc.ph, |p|), k);
    }
  }

  /** A prefix of the acknowledgement that is three bytes long is all of it. */
  lemma AckPrefix(got: seq<byte>, bwd: seq<byte>, n: nat)
    requires n <= 3 && bwd != [] && got + bwd <= ACK[..n]
    ensures got + [bwd[0]] <= ACK && (got + [bwd[0]]) + bwd[1..] == got + bwd
    ensures |got| + |bwd| <= n
  {
    assert (got + bwd)[..|got| + 1] == got + [bwd[0]];
    assert ACK[..n][..|got| + 1] == ACK[..|got| + 1];
  }

  lemma KeepTxRead(frames: seq<seq<byte>>, s: Sys, b: byte)
    requires Inv(frames, s) && Allowed(frames, s, T(Rd(Byte(b))))
    ensures Inv(frames, Apply(frames, s, T(Rd(Byte(b)))))
  {
    var got, j := s.tx.pc.got, |s.rx.acc|;
    var s' := Apply(frames, s, T(Rd(Byte(b))));
    var n := if s.rx.pc.Acking? then s.rx.pc.sent else 3;
    assert AckInTransit(s, n);
    AckPrefix(got, s.bwd, n);
    if |got| + 1 < 3 {
      assert AckInTransit(s', n);
    } else {
      assert n == 3 && got + [b] == ACK && s'.bwd == [];
      assert s'.tx.i == j;
      if s.rx.pc.Receiving? {
        assert s'.fwd == Wire(frames[j])[0..0];
        assert Midway(s', s.rx.pc.ph, frames[j]);
      }
    }
  }

  lemma KeepTxBreak(frames: seq<seq<byte>>, s: Sys)
    requires Inv(frames, s) && Allowed(frames, s, T(Rd(Break)))
    ensures Inv(frames, Apply(frames, s, T(Rd(Break))))
  {
    var s' := Apply(frames, s, T(Rd(Break)));
    var j := |s.rx.acc|;
    assert s'.tx.pc == TxFail && s'.bwd == [];
    if s.rx.pc.Receiving? && s.tx.i == j && OnTrack(s.rx.pc.ph, s.rx.buf, frames[j]) && !Derailed(s) {
      assert InTransit(s', frames[j], Progress(s.rx.pc.ph, |frames[j]|));
    }
  }

  /** What the next byte of the frame p does to the receiver. */
  lemma RxOnByte(frames: seq<seq<byte>>, rx: Rx, c: nat)
    requires Sendable(frames) && |rx.acc| < |frames| && |rx.buf| == BUF_SIZE
    requires var p := frames[|rx.acc|]; c < |p| + 8 && rx.pc == Receiving(PhaseAt(p, c)) && Stored(p, c) <= rx.buf
    ensures var p := frames[|rx.acc|];
      var rx' := RxStep(Lengths(frames), rx, Rd(Byte(Wire(p)[c])));
      && rx'.acc == rx.acc && |rx'.buf| == BUF_SIZE
      && (if c + 1 < |p| + 8 then rx'.pc == Receiving(PhaseAt(p, c + 1)) && Stored(p, c + 1) <= rx'.buf
          else rx'.pc == Acking(0) && p <= rx'.buf)
  {
    PhaseStep(frames[|rx.acc|], c, rx.buf);
  }

  /** One byte less in transit. */
  lemma TransitTail(s: Sys, s': Sys, p: seq<byte>, c: nat)
    requires c < |p| + 8 && InTransit(s, p, c) && s.fwd != []
    requires s'.fwd == s.fwd[1..] && s'.tx == s.tx && s'.fwdUp == s.fwdUp
    ensures s.fwd[0] == Wire(p)[c] && InTransit(s', p, c + 1)
  {
  }

  /** A receiver that can read a byte is in the frame the sender is busy with. */
  lemma ReadsOnTrack(frames: seq<seq<byte>>, s: Sys, b: byte)
    requires Inv(frames, s) && Allowed(frames, s, R(Rd(Byte(b))))
    ensures var j := |s.rx.acc|;
      && j < |frames| && s.rx.pc.Receiving? && s.tx.i == j && s.rx.acc == frames[..j] && |s.rx.buf| == BUF_SIZE
      && s.fwd != [] && b == s.fwd[0] && MidFrame(s, frames[j])
      && OnTrack(s.rx.pc.ph, s.rx.buf, frames[j])
      && InTransit(s, frames[j], Progress(s.rx.pc.ph, |frames[j]|))
  {
  }

  /** The receiver has taken one more byte of the frame. */
  lemma ReadInFrame(frames: seq<seq<byte>>, s: Sys, j: nat, c: nat)
    requires Sendable(frames) && j < |frames| && s.tx.i == j && s.rx.acc == frames[..j] && |s.rx.buf| == BUF_SIZE
    requires c < |frames[j]| + 8 && s.rx.pc == Receiving(PhaseAt(frames[j], c)) && Stored(frames[j], c) <= s.rx.buf
    requires MidFrame(s, frames[j]) && InTransit(s, frames[j], c)
    ensures Inv(frames, s)
  {
    PhaseProgress(frames[j], c);
    assert OnTrack(PhaseAt(frames[j], c), s.rx.buf, frames[j]);
    hide PhaseAt, Stored, InTransit, OnTrack;
    assert Midway(s, s.rx.pc.ph, frames[j]);
  }

  /** The receiver has taken the last byte of the frame. */
  lemma ReadWholeFrame(frames: seq<seq<byte>>, s: Sys, j: nat)
    requires Sendable(frames) && j < |frames| && s.tx.i == j && s.rx.acc == frames[..j] && |s.rx.buf| == BUF_SIZE
    requires s.rx.pc == Acking(0) && frames[j] <= s.rx.buf
    requires MidFrame(s, frames[j]) && InTransit(s, frames[j], |frames[j]| + 8)
    ensures Inv(frames, s)
  {
    assert s.fwd == [] && Written(s.tx, frames[j]) == |frames[j]| + 8;
    assert ACK[..0] == [];
    assert AckInTransit(s, 0);
  }

  lemma KeepRxRead(frames: seq<seq<byte>>, s: Sys, b: byte)
    requires Inv(frames, s) && Allowed(frames, s, R(Rd(Byte(b))))
    ensures Inv(frames, Apply(frames, s, R(Rd(Byte(b)))))
  {
    ReadsOnTrack(frames, s, b);
    var j := |s.rx.acc|;
    var p := frames[j];
    var s' := Apply(frames, s, R(Rd(Byte(b))));
    var c := Progress(s.rx.pc.ph, |p|);
    assert s.rx.pc.ph == PhaseAt(p, c) && Sendable(frames);
    hide Inv, RxStep, PhaseAt, Stored, InTransit, Wire;
    TransitTail(s, s', p, c);
    RxOnByte(frames, s.rx, c);
    if c + 1 < |p| + 8 {
      ReadInFrame(frames, s', j, c + 1);
    } else {
      ReadWholeFrame(frames, s', j);
    }
  }

  lemma KeepRxBreak(frames: seq<seq<byte>>, s: Sys)
    requires Inv(frames, s) && Allowed(frames, s, R(Rd(Break)))
    ensures Inv(frames, Apply(frames, s, R(Rd(Break))))
  {
    var j, ph := |s.rx.acc|, s.rx.pc.ph;
    var p := frames[j];
    var s' := Apply(frames, s, R(Rd(Break)));
    assert Lengths(frames)[j] == |p|;
    if ph.Stop? {
      StopNeverMatches(p, s, ph);
      assert s'.rx.pc == RxFail;
    } else if ph.Pay? {
      assert Derailed(s');
    }
  }

  /** The comparison buffer of a receiver that has not read all of STOP. */
  lemma StopNeverMatches(p: seq<byte>, s: Sys, ph: Phase)
    requires ph.Stop? && s.rx.pc == Receiving(ph) && Midway(s, ph, p)
    ensures ph.seqBuf != STOP
  {
    if OnTrack(ph, s.rx.buf, p) {
      assert ph.seqBuf[3] == START[3];
    } else {
      assert START[3] != STOP[3];
    }
  }

  lemma KeepRxWrite(frames: seq<seq<byte>>, s: Sys, b: byte)
    requires Inv(frames, s) && Allowed(frames, s, R(Wr(b)))
    ensures Inv(frames, Apply(frames, s, R(Wr(b))))
  {
    var j, k := |s.rx.acc|, s.rx.pc.sent;
    var s' := Apply(frames, s, R(Wr(b)));
    assert b == ACK[k];
    assert ACK[..k + 1] == ACK[..k] + [b];
    assert ACK[..k] <= ACK[..k + 1];
    if s.tx.pc.Awaiting? && s.bwdUp {
      assert s.tx.pc.got + s'.bwd == (s.tx.pc.got + s.bwd) + [b];
    }
    assert AckInTransit(s', k + 1);
    if k == 2 {
      assert s.rx.buf[..|frames[j]|] == frames[j];
      assert s'.rx.acc == frames[..j] + [frames[j]] == frames[..j + 1];
    }
  }

  lemma CutTransit(s: Sys, s': Sys, p: seq<byte>, c: nat, n: nat)
    requires InTransit(s, p, c) && n <= |s.fwd|
    requires s'.fwd == s.fwd[..n] && s'.tx == s.tx && !s'.fwdUp
    ensures InTransit(s', p, c)
  {
    assert s'.fwd == Wire(p)[c..c + |s'.fwd|];
  }

  lemma KeepCutFwd(frames: seq<seq<byte>>, s: Sys, n: nat)
    requires Inv(frames, s) && Allowed(frames, s, CutFwd(n))
    ensures Inv(frames, Apply(frames, s, CutFwd(n)))
  {
    var s', j := Apply(frames, s, CutFwd(n)), |s.rx.acc|;
    if s.rx.pc.Receiving? && s.tx.i == j {
      var p, ph := frames[j], s.rx.pc.ph;
      var c := Progress(ph, |p|);
      assert !Derailed(s) && Midway(s, ph, p);
      CutTransit(s, s', p, c, n);
    }
  }

  lemma KeepCutBwd(frames: seq<seq<byte>>, s: Sys, n: nat)
    requires Inv(frames, s) && Allowed(frames, s, CutBwd(n))
    ensures Inv(frames, Apply(frames, s, CutBwd(n)))
  {
    var s', j := Apply(frames, s, CutBwd(n)), |s.rx.acc|;
    if s.tx.pc.Awaiting? {
      assert s.tx.pc.got + s'.bwd <= s.tx.pc.got + s.bwd;
    }
    if s.rx.pc.Receiving? && s.tx.i == j && !Derailed(s) {
      assert InTransit(s', frames[j], Progress(s.rx.pc.ph, |frames[j]|));
    }
  }

  /** Every event keeps the invariant. */
  lemma InvStep(frames: seq<seq<byte>>, s: Sys, ev: Ev)
    requires Inv(frames, s) && Allowed(frames, s, ev)
    ensures Inv(frames, Apply(frames, s, ev))
  {
    match ev
    case T(Wr(b)) => KeepTxWrite(frames, s, b);
    case T(Rd(Byte(b))) => KeepTxRead(frames, s, b);
    case T(Rd(Break)) => KeepTxBreak(frames, s);
    case R(Wr(b)) => KeepRxWrite(frames, s, b);
    case R(Rd(Byte(b))) => KeepRxRead(frames, s, b);
    case R(Rd(Break)) => KeepRxBreak(frames, s);
    case CutFwd(n) => KeepCutFwd(frames, s, n);
    case CutBwd(n) => KeepCutBwd(frames, s, n);
    case SenderRetry => KeepIdle(frames, s, ev);
    case ReceiverRetry => KeepIdle(frames, s, ev);
    case Refused => KeepIdle(frames, s, ev);
  }

  /** What neither end does and no channel notices. */
  lemma KeepIdle(frames: seq<seq<byte>>, s: Sys, ev: Ev)
    requires Inv(frames, s) && Allowed(frames, s, ev) && (ev.SenderRetry? || ev.ReceiverRetry? || ev.Refused?)
    ensures Inv(frames, Apply(frames, s, ev))
  {
    var s', j := Apply(frames, s, ev), |s.rx.acc|;
    if s.rx.pc.Receiving? && s.tx.i == j && !Derailed(s) {
      assert InTransit(s', frames[j], Progress(s.rx.pc.ph, |frames[j]|));
    }
  }
}
