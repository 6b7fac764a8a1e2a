/** The exchange of one record, from the two calls to the contents of the record. */
module Records {
  import opened Bytes
  import opened Channel
  import opened Framing
  import opened Reception
  import opened Transmission
  import opened Protocol
  import opened Streams
  import opened Exchange
  import opened Outcomes
  import opened Memory
  import opened Challenge
  import opened Parties

  /** A record together with the heap it points into. */
  datatype Side = Side(func: uint32, ps: seq<Portion>, blocks: Blocks) {
    ghost predicate Ok() {
      Owned(ps, blocks)
    }

    ghost function Frames(): seq<seq<byte>>
      requires Ok()
    {
      FramesOf(func, ps, blocks)
    }
  }

  /** A call: the log from place lo on, its result, where the connection was before
      and after it. */
  datatype Call = Call(log: seq<Act>, lo: nat, ret: int, e0: Spot, e1: Spot)

  ghost function Sender(a: Side, c: Call): Tx
    requires a.Ok() && c.lo <= |c.log|
  {
    TxRun(a.Frames(), TX_INIT, c.log, c.lo, |c.log|)
  }

  ghost function Receiver(b: Side, c: Call): Rx
    requires b.Ok() && c.lo <= |c.log|
  {
    RxRun(Lengths(b.Frames()), RxInit(Rep(0, BUF_SIZE)), c.log, c.lo, |c.log|)
  }

  /** What sendChallenge promises. */
  ghost predicate SendCall(a: Side, c: Call) {
    && a.Ok() && c.lo <= |c.log| && TxEnded(a.Frames(), Sender(a, c), c.ret, c.e0.evs, c.e1.evs)
    && After(Sender(a, c), c.e1.pos, c.e1.evs) == SenderAfter(a.Frames(), 0, c.e0.input, c.e0.pos, c.e0.evs)
  }

  /** What recChallenge promises of a record b that it leaves as b'. */
  ghost predicate RecCall(b: Side, b': Side, c: Call) {
    && b.Ok() && b'.Ok() && b'.ps == b.ps && c.lo <= |c.log|
    && var rx := Receiver(b, c);
    && RxEnded(rx, c.ret, c.e0.evs, c.e1.evs)
    && Fit(Lengths(b.Frames()), Rep(0, BUF_SIZE))
    && After(rx, c.e1.pos, c.e1.evs)
       == ReceiverAfter(Lengths(b.Frames()), Rep(0, BUF_SIZE), [], c.e0.input, c.e0.pos, c.e0.evs)
    && |rx.acc| <= |b.Frames()| && b'.Frames() == rx.acc + b.Frames()[|rx.acc|..]
  }

  method Send(ch: Channel, fc: FuncCall, heap: Heap) returns (ret: int, ghost a: Side, ghost c: Call)
    requires ch.Valid() && fc.Valid() && Owned(fc.dataP[..], heap.blocks)
    modifies ch
    ensures a == Side(fc.func, fc.dataP[..], heap.blocks)
    ensures c == Call(ch.log, |old(ch.log)|, ret, old(Here(ch)), Here(ch)) && SendCall(a, c)
  {
    a := Side(fc.func, fc.dataP[..], heap.blocks);
    ret := SendChallenge(ch, fc, heap);
    c := Call(ch.log, |old(ch.log)|, ret, old(Here(ch)), Here(ch));
  }

  method Rec(ch: Channel, fc: FuncCall, heap: Heap) returns (ret: int, ghost b: Side, ghost b': Side, ghost c: Call)
    requires ch.Valid() && heap.Valid() && fc.Valid() && Owned(fc.dataP[..], heap.blocks)
    modifies ch, fc, heap
    ensures b == old(Side(fc.func, fc.dataP[..], heap.blocks)) && b' == Side(fc.func, fc.dataP[..], heap.blocks)
    ensures c == Call(ch.log, |old(ch.log)|, ret, old(Here(ch)), Here(ch)) && RecCall(b, b', c)
  {
    b := Side(fc.func, fc.dataP[..], heap.blocks);
    ret := RecChallenge(ch, fc, heap);
    b' := Side(fc.func, fc.dataP[..], heap.blocks);
    c := Call(ch.log, |old(ch.log)|, ret, old(Here(ch)), Here(ch));
  }

  // ---------------------------------------------------------------- shapes and places

  /** How many frames come before that of portion i. */
  function Place(ps: seq<Portion>, i: nat): (n: nat)
    requires i <= |ps|
    ensures n >= 1
  {
    if i == 0 then 1 else Place(ps, i - 1) + if Active(ps[i - 1]) then 1 else 0
  }

  lemma {:induction false} PlaceIs(ps: seq<Portion>, blocks: Blocks, i: nat)
    requires i <= |ps| && Owned(ps, blocks)
    ensures Place(ps, i) == 1 + |PortionFrames(ps, blocks, 0, i)|
  {
    if i > 0 {
      PlaceIs(ps, blocks, i - 1);
    }
  }

  lemma {:induction false} SamePlace(ps: seq<Portion>, qs: seq<Portion>, i: nat)
    requires SameShape(ps, qs) && i <= |ps|
    ensures Place(ps, i) == Place(qs, i)
  {
    if i > 0 {
      SamePlace(ps, qs, i - 1);
    }
  }

  lemma ShapeLengths(a: Side, b: Side)
    requires a.Ok() && b.Ok() && SameShape(a.ps, b.ps)
    ensures Lengths(a.Frames()) == Lengths(b.Frames()) && |a.Frames()| == |b.Frames()|
  {
    SameLengths(a.ps, b.ps, a.blocks, b.blocks, |a.ps|);
    assert Lengths(a.Frames()) == [4] + Lengths(PortionFrames(a.ps, a.blocks, 0, |a.ps|));
    assert Lengths(b.Frames()) == [4] + Lengths(PortionFrames(b.ps, b.blocks, 0, |b.ps|));
    assert |a.Frames()| == |Lengths(a.Frames())|;
  }

  /** The frame of portion i is its contents. */
  lemma FrameOf(a: Side, i: nat)
    requires a.Ok() && i < |a.ps| && Active(a.ps[i])
    ensures var k := Place(a.ps, i); k < |a.Frames()| && a.Frames()[k] == a.blocks[a.ps[i].data.addr]
  {
    PlaceIs(a.ps, a.blocks, i);
    FrameIndex(a.func, a.ps, a.blocks, i, a.Frames());
  }

  lemma IdOf(a: Side)
    requires a.Ok()
    ensures a.Frames()[0] == LE32(a.func)
  {
  }

  // ---------------------------------------------------------------- what the receiver ends up with

  /** Of record b' the first n frames are those of a, the others those of b. */
  ghost predicate Handed(a: Side, b: Side, b': Side, n: nat)
    requires a.Ok() && b.Ok() && b'.Ok() && b'.ps == b.ps && SameShape(a.ps, b.ps)
  {
    && b'.func == (if n > 0 then a.func else b.func)
    && forall i: nat | i < |b.ps| && Active(b.ps[i]) ::
         b'.blocks[b.ps[i].data.addr]
         == if Place(b.ps, i) < n then a.blocks[a.ps[i].data.addr] else b.blocks[b.ps[i].data.addr]
  }

  /** Records are determined by their frames, portion by portion. */
  lemma FramesTell(a: Side, b: Side, b': Side, n: nat)
    requires a.Ok() && b.Ok() && b'.Ok() && b'.ps == b.ps && SameShape(a.ps, b.ps) && n <= |a.Frames()|
    requires |b.Frames()| == |a.Frames()| && b'.Frames() == a.Frames()[..n] + b.Frames()[n..]
    ensures Handed(a, b, b', n)
  {
    var f, g, h := a.Frames(), b.Frames(), b'.Frames();
    IdOf(a);
    IdOf(b);
    IdOf(b');
    RoundTrip32(b'.func);
    RoundTrip32(if n > 0 then a.func else b.func);
    assert h[0] == if n > 0 then f[0] else g[0];
    forall i: nat | i < |b.ps| && Active(b.ps[i])
      ensures b'.blocks[b.ps[i].data.addr]
           == if Place(b.ps, i) < n then a.blocks[a.ps[i].data.addr] else b.blocks[b.ps[i].data.addr]
    {
      var k := Place(b.ps, i);
      SamePlace(a.ps, b.ps, i);
      assert Active(a.ps[i]);
      FrameOf(a, i);
      FrameOf(b, i);
      FrameOf(b', i);
      assert h[k] == if k < n then f[k] else g[k];
    }
  }

  // ---------------------------------------------------------------- logs

  lemma {:induction false} TxShift(frames: seq<seq<byte>>, tx: Tx, log: seq<Act>, lo: nat, acts: seq<Act>, k: nat)
    requires lo <= |log| && acts == log[lo..] && k <= |acts|
    ensures TxRun(frames, tx, log, lo + k, |log|) == TxRun(frames, tx, acts, k, |acts|)
    decreases |acts| - k
  {
    if k < |acts| {
      TxShift(frames, TxStep(frames, tx, acts[k]), log, lo, acts, k + 1);
    }
  }

  lemma {:induction false} RxShift(lens: seq<nat>, rx: Rx, log: seq<Act>, lo: nat, acts: seq<Act>, k: nat)
    requires lo <= |log| && acts == log[lo..] && k <= |acts|
    ensures RxRun(lens, rx, log, lo + k, |log|) == RxRun(lens, rx, acts, k, |acts|)
    decreases |acts| - k
  {
    if k < |acts| {
      RxShift(lens, RxStep(lens, rx, acts[k]), log, lo, acts, k + 1);
    }
  }

  // ---------------------------------------------------------------- both calls

  /** The two calls were made on one connection, and evs is what happened. */
  ghost predicate Together(a: Side, b: Side, b': Side, s: Call, r: Call, retries: nat, evs: seq<Ev>) {
    && SendCall(a, s) && RecCall(b, b', r) && SameShape(a.ps, b.ps)
    && Legal(a.Frames(), Start(Rep(0, BUF_SIZE), retries), evs)
    && TxActs(evs) == s.log[s.lo..] && RxActs(evs) == r.log[r.lo..]
  }

  ghost function End(a: Side, retries: nat, evs: seq<Ev>): Sys
    requires a.Ok() && Legal(a.Frames(), Start(Rep(0, BUF_SIZE), retries), evs)
  {
    Final(a.Frames(), Start(Rep(0, BUF_SIZE), retries), evs)
  }

  lemma EndStates(a: Side, b: Side, b': Side, s: Call, r: Call, retries: nat, evs: seq<Ev>)
    requires Together(a, b, b', s, r, retries, evs)
    ensures Sender(a, s) == End(a, retries, evs).tx && Receiver(b, r) == End(a, retries, evs).rx
  {
    var s0 := Start(Rep(0, BUF_SIZE), retries);
    ShapeLengths(a, b);
    TxShift(a.Frames(), TX_INIT, s.log, s.lo, TxActs(evs), 0);
    RxShift(Lengths(a.Frames()), RxInit(Rep(0, BUF_SIZE)), r.log, r.lo, RxActs(evs), 0);
    ProjectsTx(a.Frames(), s0, evs);
    ProjectsRx(a.Frames(), s0, evs);
  }

  /** However the two calls interleave and wherever the connection is cut: the
      receiver's record is a prefix of the sender's followed by what it was, at
      most one frame longer than what was acknowledged to the sender. A sender
      that returns 0 has a receiver that returns 0; a receiver that returns 0 has
      the sender's id and all its portions; and then nothing is left in transit. */
  lemma RecordTransferred(a: Side, b: Side, b': Side, s: Call, r: Call, retries: nat, evs: seq<Ev>)
    requires Together(a, b, b', s, r, retries, evs)
    ensures var n, acked := |Receiver(b, r).acc|, Sender(a, s).i;
      && Handed(a, b, b', n)
      && acked <= n <= acked + 1
    ensures s.ret == 0 ==> r.ret == 0 && End(a, retries, evs).fwd == [] == End(a, retries, evs).bwd
    ensures r.ret == 0 ==> b'.func == a.func
                           && forall i: nat | i < |b.ps| && Active(b.ps[i]) ::
                               b'.blocks[b.ps[i].data.addr] == a.blocks[a.ps[i].data.addr]
  {
    EndStates(a, b, b', s, r, retries, evs);
    ShapeLengths(a, b);
    AlwaysSendable(a.func, a.ps, a.blocks);
    Agreement(a.Frames(), Rep(0, BUF_SIZE), retries, evs);
    InterleavedEnd(a, retries, evs);
    var n := |Receiver(b, r).acc|;
    assert Receiver(b, r).acc == a.Frames()[..n];
    FramesTell(a, b, b', n);
    if r.ret == 0 {
      forall i: nat | i < |b.ps| && Active(b.ps[i])
        ensures Place(b.ps, i) < n
      {
        FrameOf(b, i);
      }
    }
  }

  lemma InterleavedEnd(a: Side, retries: nat, evs: seq<Ev>)
    requires a.Ok() && Legal(a.Frames(), Start(Rep(0, BUF_SIZE), retries), evs)
    ensures var e := End(a, retries, evs);
      && (e.rx.pc.RxDone? ==> e.rx.acc == a.Frames())
      && (e.tx.pc.TxDone? ==> e.rx.pc.RxDone? && e.fwd == [] == e.bwd)
  {
    AlwaysSendable(a.func, a.ps, a.blocks);
    InvStart(a.Frames(), Rep(0, BUF_SIZE), retries);
    InvAlways(a.Frames(), Start(Rep(0, BUF_SIZE), retries), evs);
  }

  /** Without a cut the only reasons to fail are in the write schedules: the
      sender gives up exactly on a write of a frame that is not taken whole, the
      receiver exactly on a close or fatal error at an acknowledgement. */
  lemma UncutResults(a: Side, b: Side, b': Side, s: Call, r: Call, retries: nat, evs: seq<Ev>)
    requires Together(a, b, b', s, r, retries, evs) && NoCuts(evs)
    ensures var tx, frames := Sender(a, s), a.Frames();
      s.ret != 0 <==> tx.pc.Sending? && tx.i < |frames| && FrameStopped(s.e0.evs, s.e1.evs, |frames[tx.i]|, tx.pc.k)
    ensures var rx := Receiver(b, r);
      r.ret != 0 <==> rx.pc.Acking? && AckStopped(r.e0.evs, r.e1.evs, rx.pc.sent)
  {
    EndStates(a, b, b', s, r, retries, evs);
    AlwaysSendable(a.func, a.ps, a.blocks);
    AlwaysCompletes(a.Frames(), Rep(0, BUF_SIZE), retries, evs);
  }

  /** A connection that is not cut, takes every write of a frame whole and never
      fails on an acknowledgement carries the record over: both calls return 0. */
  lemma RecordArrives(a: Side, b: Side, b': Side, s: Call, r: Call, retries: nat, evs: seq<Ev>)
    requires Together(a, b, b', s, r, retries, evs) && NoCuts(evs)
    requires forall i | 0 <= i < |s.e0.evs| :: Whole(s.e0.evs[i], 255)
    requires forall i | 0 <= i < |r.e0.evs| :: !Fails(r.e0.evs[i])
    ensures s.ret == 0 && r.ret == 0 && Handed(a, b, b', |a.Frames()|)
  {
    UncutResults(a, b, b', s, r, retries, evs);
    RecordTransferred(a, b, b', s, r, retries, evs);
    AlwaysSendable(a.func, a.ps, a.blocks);
    EndStates(a, b, b', s, r, retries, evs);
    InterleavedEnd(a, retries, evs);
    var tx, frames := Sender(a, s), a.Frames();
    hide FrameStopped, AckStopped;
    var len, k := if tx.i < |frames| then |frames[tx.i]| else 1, if tx.pc.Sending? then tx.pc.k else 0;
    FrameStoppedByEvent(s.e0.evs, s.e1.evs, len, k);
  }

  // ---------------------------------------------------------------- one call, for any input

  /** sendChallenge returns 0 if and only if every write of a frame is taken whole
      and the input goes on with an acknowledgement for each frame. */
  lemma SentExactly(a: Side, c: Call)
    requires SendCall(a, c)
    ensures c.ret == 0 <==> HoldsAt(c.e0.input, c.e0.pos, Acks(|a.Frames()|)) && TakesFrames(a.Frames(), 0, c.e0.evs)
    ensures c.ret == 0 ==> c.e1.pos == c.e0.pos + 3 * |a.Frames()|
  {
    var frames := a.Frames();
    AlwaysSendable(a.func, a.ps, a.blocks);
    AcksHeld(c.e0.input, c.e0.pos, |frames|);
    hide SenderAfter, FrameStopped;
    SendsExactly(frames, 0, |frames|, c.e0.input, c.e0.pos, c.e0.evs);
    if c.ret == 0 {
      SentWhole(frames, 0, |frames|, c.e0.input, c.e0.pos, c.e0.evs);
    }
  }

  /** When the input goes on with the frames of a record of the same shape,
      recChallenge returns 0 and stores that record if and only if no write of an
      acknowledgement fails, and it reads not one byte more. */
  lemma ReceivedExactly(a: Side, b: Side, b': Side, c: Call)
    requires a.Ok() && RecCall(b, b', c) && SameShape(a.ps, b.ps)
    requires HoldsAt(c.e0.input, c.e0.pos, WireFrom(a.Frames(), 0))
    ensures c.ret == 0 <==> NoFailure(c.e0.evs, c.e1.evs)
    ensures Handed(a, b, b', |Receiver(b, c).acc|)
    ensures c.ret == 0 ==> Handed(a, b, b', |a.Frames()|) && c.e1.pos == c.e0.pos + |WireFrom(a.Frames(), 0)|
  {
    ShapeLengths(a, b);
    AlwaysSendable(a.func, a.ps, a.blocks);
    assert a.Frames()[..0] == [];
    hide ReceiverAfter, AckStopped, WireFrom, HoldsAt, NoFailure;
    ReceivesWires(a.Frames(), 0, Rep(0, BUF_SIZE), c.e0.input, c.e0.pos, c.e0.evs);
    var n := |Receiver(b, c).acc|;
    assert Receiver(b, c).acc == a.Frames()[..n];
    FramesTell(a, b, b', n);
  }

  /** When that input is cut off before the last byte, recChallenge returns 1; what
      it has stored are the first portions of the record. */
  lemma CutOff(a: Side, b: Side, b': Side, c: Call, k: nat)
    requires a.Ok() && RecCall(b, b', c) && SameShape(a.ps, b.ps) && k < |WireFrom(a.Frames(), 0)|
    requires HoldsAt(c.e0.input, c.e0.pos, WireFrom(a.Frames(), 0)[..k]) && CutAt(c.e0.input, c.e0.pos + k)
    ensures c.ret != 0
    ensures Handed(a, b, b', |Receiver(b, c).acc|)
  {
    ShapeLengths(a, b);
    AlwaysSendable(a.func, a.ps, a.blocks);
    assert a.Frames()[..0] == [];
    hide ReceiverAfter, AckStopped, WireFrom, HoldsAt, NoFailure, CutAt;
    ReceivesCut(a.Frames(), 0, Rep(0, BUF_SIZE), c.e0.input, c.e0.pos, c.e0.evs, k, c.e0.pos + k);
    var n := |Receiver(b, c).acc|;
    assert Receiver(b, c).acc == a.Frames()[..n];
    FramesTell(a, b, b', n);
  }

  // ---------------------------------------------------------------- the id, byte by byte

  /** What a successful sendChallenge writes begins with the id, lowest byte first,
      between its start and stop sequences. */
  lemma IdSent(a: Side, c: Call)
    requires SendCall(a, c) && c.ret == 0
    ensures var w, f := WritesIn(c.log, c.lo, |c.log|), a.func;
      && |w| >= 12
      && w[..12] == [0x55, 0x55, 0x55, 0x55, f % 0x100, f / 0x100 % 0x100, f / 0x1_0000 % 0x100, f / 0x100_0000,
                     0xFF, 0xFF, 0xFF, 0xFF]
  {
    var frames := a.Frames();
    AlwaysSendable(a.func, a.ps, a.blocks);
    IdBytes(a.func, a.ps, a.blocks);
    SenderStream(frames, c.log, c.lo, |c.log|);
    assert WireFrom(frames, 0) == Wire(frames[0]) + WireFrom(frames, 1);
    assert WireFrom(frames, 0)[..12] == Wire(frames[0]);
  }

  /** An id that arrives in its frame, and is acknowledged, is stored as the number
      that its bytes stand for, the first being the lowest. */
  lemma IdStored(b: Side, b': Side, c: Call, w: byte, x: byte, y: byte, z: byte)
    requires RecCall(b, b', c) && AckWrites(c.e0.evs, 0).0 == 3
    requires HoldsAt(c.e0.input, c.e0.pos, [0x55, 0x55, 0x55, 0x55, w, x, y, z, 0xFF, 0xFF, 0xFF, 0xFF])
    ensures b'.func == Number(w, x, y, z)
  {
    var d: seq<byte> := [w, x, y, z];
    assert Wire(d) == [0x55, 0x55, 0x55, 0x55, w, x, y, z, 0xFF, 0xFF, 0xFF, 0xFF];
    IdBytes(b.func, b.ps, b.blocks);
    IdBytes(b'.func, b'.ps, b'.blocks);
    AlwaysSendable(b.func, b.ps, b.blocks);
    hide ReceiverAfter, AckWrites, HoldsAt, FramesOf, Wire, RxRun;
    FirstStored(b.Frames(), d, c.e0.input, c.e0.pos, c.e0.evs);
    assert b'.Frames()[0] == Receiver(b, c).acc[0];
  }

  lemma FirstStored(was: seq<seq<byte>>, d: seq<byte>, ts: seq<Tok>, n: nat, evs: seq<WriteEvent>)
    requires Sendable(was) && |d| == |was[0]| && HoldsAt(ts, n, Wire(d)) && AckWrites(evs, 0).0 == 3
    requires Fit(Lengths(was), Rep(0, BUF_SIZE))
    ensures [d] <= ReceiverAfter(Lengths(was), Rep(0, BUF_SIZE), [], ts, n, evs).st.acc
  {
    var frames := [d] + was[1..];
    FirstReplaced(was, d, frames);
    assert frames[..0] == [] && frames[..1] == [d];
    var (sent, rest) := AckWrites(evs, 0);
    hide ReceiverAfter, Lengths, AckWrites, HoldsAt, Wire, Fit;
    ReceivesFirst(frames, 0, 1, Rep(0, BUF_SIZE), ts, n, evs);
  }

  lemma FirstReplaced(was: seq<seq<byte>>, d: seq<byte>, frames: seq<seq<byte>>)
    requires Sendable(was) && |d| == |was[0]| && frames == [d] + was[1..]
    ensures Sendable(frames) && Lengths(frames) == Lengths(was)
  {
    forall i | 0 <= i < |frames|
      ensures |frames[i]| == |was[i]|
    {
      assert i > 0 ==> frames[i] == was[i];
    }
  }
}
