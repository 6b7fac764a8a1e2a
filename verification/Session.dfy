/** One session of the client: three challenges are received, put to the other
    VM, and answered; whatever happens, the buffers are given back. */
module Session {
  import opened Bytes
  import opened Channel
  import opened Reception
  import opened Protocol
  import opened Outcomes
  import opened Memory
  import opened Challenge
  import opened Parties
  import opened SharedPage
  import opened Staging
  import opened PufCaller

  // ---------------------------------------------------------------- who owns what

  /** The heap is b0 plus the blocks of three records, each block with one owner. */
  ghost predicate Books(b0: Blocks, b: Blocks, p: seq<Portion>, q: seq<Portion>, r: seq<Portion>) {
    && Owned(p, b) && Owned(q, b) && Owned(r, b)
    && Apart(p, q) && Apart(p, r) && Apart(q, r)
    && (forall a :: a in b <==> a in b0 || Holds(p, a) || Holds(q, a) || Holds(r, a))
    && (forall a | a in b0 :: !Holds(p, a) && !Holds(q, a) && !Holds(r, a) && b[a] == b0[a])
  }

  lemma Rotate(b0: Blocks, b: Blocks, p: seq<Portion>, q: seq<Portion>, r: seq<Portion>)
    requires Books(b0, b, p, q, r)
    ensures Books(b0, b, q, r, p)
  {
  }

  lemma NothingOwned(b0: Blocks, b: Blocks, p: seq<Portion>, q: seq<Portion>, r: seq<Portion>)
    requires AllNull(p) && AllNull(q) && AllNull(r)
    ensures Books(b0, b, p, q, r) <==> b == b0
  {
  }

  /** A record without buffers gets new ones. */
  lemma Allocated(b0: Blocks, b: Blocks, b': Blocks, p: seq<Portion>, p': seq<Portion>, q: seq<Portion>,
                  r: seq<Portion>)
    requires Books(b0, b, p, q, r) && AllNull(p) && Adds(p', b, b') && Owned(p', b')
    ensures Books(b0, b', p', q, r)
  {
    forall i, j | 0 <= i < |p'| && 0 <= j < |q| && p'[i].data.Block? && q[j].data.Block?
      ensures p'[i].data.addr != q[j].data.addr
    {
      assert Holds(p', p'[i].data.addr);
    }
    forall i, j | 0 <= i < |p'| && 0 <= j < |r| && p'[i].data.Block? && r[j].data.Block?
      ensures p'[i].data.addr != r[j].data.addr
    {
      assert Holds(p', p'[i].data.addr);
    }
  }

  lemma Rewritten(b0: Blocks, b: Blocks, b': Blocks, p: seq<Portion>, q: seq<Portion>, r: seq<Portion>)
    requires Books(b0, b, p, q, r) && OnlyThese(p, b, b') && Owned(p, b')
    ensures Books(b0, b', p, q, r)
  {
    StaysPut(q, p, b, b');
    StaysPut(r, p, b, b');
  }

  lemma Freed(b0: Blocks, b: Blocks, b': Blocks, p: seq<Portion>, p': seq<Portion>, q: seq<Portion>, r: seq<Portion>)
    requires Books(b0, b, p, q, r) && Removes(p, b, b') && AllNull(p')
    ensures Books(b0, b', p', q, r)
  {
    forall i | 0 <= i < |q| && q[i].data.Block?
      ensures q[i].data.addr in b'
    {
      assert !Holds(p, q[i].data.addr);
    }
    forall i | 0 <= i < |r| && r[i].data.Block?
      ensures r[i].data.addr in b'
    {
      assert !Holds(p, r[i].data.addr);
    }
  }

  // ---------------------------------------------------------------- records and frames

  /** Every portion is allocated, with the sizes of the pattern. */
  predicate Shaped(ps: seq<Portion>, pattern: seq<byte>) {
    |ps| == |pattern| && forall i | 0 <= i < |ps| :: ps[i].data.Block? && ps[i].len == pattern[i] > 0
  }

  ghost function RecFrames(rec: Record, blocks: Blocks): seq<seq<byte>>
    requires Owned(rec.ps, blocks)
  {
    FramesOf(rec.func, rec.ps, blocks)
  }

  /** The frames of a record with all its buffers. */
  lemma FullFrames(rec: Record, pattern: seq<byte>, blocks: Blocks)
    requires Owned(rec.ps, blocks) && Shaped(rec.ps, pattern) && |pattern| == DATA_PORTIONS
    ensures var f := RecFrames(rec, blocks);
      && |f| == 5 && f[0] == LE32(rec.func)
      && forall i: nat | i < 4 :: f[1 + i] == blocks[rec.ps[i].data.addr] && |f[1 + i]| == pattern[i]
  {
    var ps := rec.ps;
    assert PortionFrames(ps, blocks, 0, 0) == [];
    assert PortionFrames(ps, blocks, 0, 1) == [blocks[ps[0].data.addr]];
    assert PortionFrames(ps, blocks, 0, 2) == [blocks[ps[0].data.addr], blocks[ps[1].data.addr]];
    assert PortionFrames(ps, blocks, 0, 3)
        == [blocks[ps[0].data.addr], blocks[ps[1].data.addr], blocks[ps[2].data.addr]];
    assert RecFrames(rec, blocks) == [LE32(rec.func), blocks[ps[0].data.addr], blocks[ps[1].data.addr],
                                      blocks[ps[2].data.addr], blocks[ps[3].data.addr]];
  }

  lemma {:induction false} DoneHasAll(lens: seq<nat>, rx: Rx, log: seq<Act>, lo: nat, hi: nat)
    requires lo <= hi <= |log| && (rx.pc.RxDone? ==> |rx.acc| == |lens|)
    ensures var rx' := RxRun(lens, rx, log, lo, hi); rx'.pc.RxDone? ==> |rx'.acc| == |lens|
    decreases hi - lo
  {
    if lo < hi {
      DoneHasAll(lens, RxStep(lens, rx, log[lo]), log, lo + 1, hi);
    }
  }

  // ---------------------------------------------------------------- the parts of the session

  /** b' is b with blocks added. */
  ghost predicate Includes(b: Blocks, b': Blocks) {
    forall a | a in b :: a in b' && b'[a] == b[a]
  }

  /** What became of one challenge: its record, whether all buffers of the given
      sizes could be allocated, and whether it was received. */
  datatype Leg = Leg(funcId: uint32, pattern: seq<byte>, ok: bool, received: bool)

  /** The frames of a record before anything is received into it. */
  function Blank(funcId: uint32, sizes: seq<byte>): (f: seq<seq<byte>>)
    ensures |f| == 1 + |sizes| && f[0] == LE32(funcId) && forall i: nat | i < |sizes| :: f[1 + i] == Rep(0, sizes[i])
  {
    [LE32(funcId)] + seq(|sizes|, i requires 0 <= i < |sizes| => Rep(0, sizes[i]))
  }

  ghost function Heard(rec: Record, blocks: Blocks, log: seq<Act>, lo: nat, hi: nat): Rx
    requires lo <= hi <= |log| && Owned(rec.ps, blocks)
  {
    RxRun(Lengths(RecFrames(rec, blocks)), RxInit(Rep(0, BUF_SIZE)), log, lo, hi)
  }

  /** The actions log[lo..hi] are the reception of one challenge over the write
      schedule from e0 to e1: what was accepted is the start of the record, and the
      rest of it is blank. Without all its buffers, one that is needed is missing. */
  ghost predicate TookChallenge(leg: Leg, rec: Record, blocks: Blocks, log: seq<Act>, lo: nat, hi: nat,
                                e0: Spot, e1: Spot) {
    && Owned(rec.ps, blocks) && lo <= hi <= |log|
    && (leg.ok <==> Shaped(rec.ps, leg.pattern)) && (!leg.ok ==> !Copyable(rec.ps))
    && var rx, f, blank := Heard(rec, blocks, log, lo, hi), RecFrames(rec, blocks),
        Blank(leg.funcId, if leg.ok then leg.pattern else []);
    && RxEnded(rx, if leg.received then 0 else 1, e0.evs, e1.evs) && e1.input == e0.input
    && Fit(Lengths(f), Rep(0, BUF_SIZE))
    && After(rx, e1.pos, e1.evs) == ReceiverAfter(Lengths(f), Rep(0, BUF_SIZE), [], e0.input, e0.pos, e0.evs)
    && |rx.acc| <= |f| == |blank| && f == rx.acc + blank[|rx.acc|..]
  }

  /** The actions log[lo..hi] are the sending of one response. */
  ghost predicate GaveResponse(rec: Record, blocks: Blocks, log: seq<Act>, lo: nat, hi: nat, sent: bool,
                               e0: Spot, e1: Spot) {
    && Owned(rec.ps, blocks) && lo <= hi <= |log|
    && var f := RecFrames(rec, blocks);
    var tx := TxRun(f, TX_INIT, log, lo, hi);
    && TxEnded(f, tx, if sent then 0 else 1, e0.evs, e1.evs) && e1.input == e0.input
    && After(tx, e1.pos, e1.evs) == SenderAfter(f, 0, e0.input, e0.pos, e0.evs)
  }

  /** A challenge that was received is in the record, all of it. */
  lemma ReceivedWhole(leg: Leg, rec: Record, blocks: Blocks, log: seq<Act>, lo: nat, hi: nat, e0: Spot, e1: Spot)
    requires leg.received && TookChallenge(leg, rec, blocks, log, lo, hi, e0, e1)
    ensures Heard(rec, blocks, log, lo, hi).acc == RecFrames(rec, blocks)
  {
    DoneHasAll(Lengths(RecFrames(rec, blocks)), RxInit(Rep(0, BUF_SIZE)), log, lo, hi);
  }

  lemma {:induction false} NoFrames(ps: seq<Portion>, b: Blocks, n: nat)
    requires n <= |ps| && Owned(ps, b) && AllNull(ps)
    ensures PortionFrames(ps, b, 0, n) == []
  {
    if n > 0 {
      NoFrames(ps, b, n - 1);
    }
  }

  /** initFunc leaves a blank record. */
  lemma BlankRecord(rec: Record, b: Blocks, pattern: seq<byte>, ok: bool)
    requires Owned(rec.ps, b) && |rec.ps| == |pattern| == DATA_PORTIONS
    requires forall i | 0 <= i < |pattern| :: pattern[i] > 0
    requires if ok then Zeroed(rec.ps, DATA_PORTIONS, pattern, b) else AllNull(rec.ps)
    ensures ok <==> Shaped(rec.ps, pattern)
    ensures RecFrames(rec, b) == Blank(rec.func, if ok then pattern else [])
  {
    if ok {
      FullFrames(rec, pattern, b);
      var f, g := RecFrames(rec, b), Blank(rec.func, pattern);
      forall k | 0 <= k < 5
        ensures f[k] == g[k]
      {
        if k > 0 {
          assert f[1 + (k - 1)] == b[rec.ps[k - 1].data.addr];
        }
      }
    } else {
      NoFrames(rec.ps, b, |rec.ps|);
      assert rec.ps[0].data.Null?;
    }
  }

  /** initFunc for one record: all its buffers, or none. */
  method Allocate(heap: Heap, fc: FuncCall, funcId: uint32, pattern: seq<byte>,
                  ghost b0: Blocks, ghost q: seq<Portion>, ghost r: seq<Portion>) returns (ok: bool)
    requires heap.Valid() && fc.Valid() && |pattern| == DATA_PORTIONS && forall i | 0 <= i < |pattern| :: pattern[i] > 0
    requires AllNull(fc.dataP[..]) && Books(b0, heap.blocks, fc.dataP[..], q, r)
    modifies heap, fc, fc.dataP
    ensures heap.Valid() && Books(b0, heap.blocks, fc.dataP[..], q, r) && Includes(old(heap.blocks), heap.blocks)
    ensures Fresh(fc.dataP[..], old(heap.blocks)) && fc.func == funcId
    ensures ok <==> Shaped(fc.dataP[..], pattern)
    ensures !ok ==> !Copyable(fc.dataP[..])
    ensures RecFrames(Record(funcId, fc.dataP[..]), heap.blocks) == Blank(funcId, if ok then pattern else [])
    ensures (ok, heap.refusals) == Grants(old(heap.refusals), pattern, 0)
  {
    ghost var p, b := fc.dataP[..], heap.blocks;
    var ret := InitFunc(heap, fc, funcId, pattern);
    ok := ret == 0;
    AfterInit(ok, Record(funcId, fc.dataP[..]), pattern, b0, b, heap.blocks, p, q, r);
  }

  lemma AfterInit(ok: bool, rec: Record, pattern: seq<byte>, b0: Blocks, b: Blocks, b': Blocks,
                  p: seq<Portion>, q: seq<Portion>, r: seq<Portion>)
    requires |rec.ps| == |pattern| == DATA_PORTIONS && forall i | 0 <= i < |pattern| :: pattern[i] > 0
    requires AllNull(p) && Books(b0, b, p, q, r)
    requires ok ==> Zeroed(rec.ps, DATA_PORTIONS, pattern, b') && Distinct(rec.ps) && Adds(rec.ps, b, b')
    requires !ok ==> b' == b && AllNull(rec.ps) && LacksBuffer(rec.ps, pattern)
    ensures !ok ==> !Copyable(rec.ps)
    ensures Books(b0, b', rec.ps, q, r) && Includes(b, b') && Fresh(rec.ps, b)
    ensures ok <==> Shaped(rec.ps, pattern)
    ensures RecFrames(rec, b') == Blank(rec.func, if ok then pattern else [])
  {
    assert Owned(rec.ps, b');
    if ok {
      Allocated(b0, b, b', p, rec.ps, q, r);
    } else {
      NothingFor(b0, b, p, rec.ps, q, r);
    }
    hide Books, Blank, RecFrames, Distinct, Apart, Adds;
    BlankRecord(rec, b', pattern, ok);
  }

  lemma NothingFor(b0: Blocks, b: Blocks, p: seq<Portion>, p': seq<Portion>, q: seq<Portion>, r: seq<Portion>)
    requires Books(b0, b, p, q, r) && AllNull(p) && AllNull(p')
    ensures Books(b0, b, p', q, r)
  {
  }

  /** None of these buffers was there before. */
  ghost predicate Fresh(ps: seq<Portion>, before: Blocks) {
    forall a | a in before :: !Holds(ps, a)
  }

  /** Only the contents of a record change in a reception, not the lengths. */
  lemma LengthsStay(func: uint32, func': uint32, ps: seq<Portion>, b: Blocks, b': Blocks)
    requires Owned(ps, b) && Owned(ps, b')
    ensures Lengths(FramesOf(func, ps, b)) == Lengths(FramesOf(func', ps, b'))
  {
    SameLengths(ps, ps, b, b', |ps|);
    assert Lengths(FramesOf(func, ps, b)) == [4] + Lengths(PortionFrames(ps, b, 0, |ps|));
    assert Lengths(FramesOf(func', ps, b')) == [4] + Lengths(PortionFrames(ps, b', 0, |ps|));
  }

  /** initFunc and recChallenge for one record. Both results are only logged. */
  method SetUp(heap: Heap, ch: Channel, fc: FuncCall, funcId: uint32, pattern: seq<byte>,
               ghost b0: Blocks, ghost q: seq<Portion>, ghost r: seq<Portion>) returns (leg: Leg)
    requires heap.Valid() && ch.Valid() && fc.Valid() && |pattern| == DATA_PORTIONS
    requires forall i | 0 <= i < |pattern| :: pattern[i] > 0
    requires AllNull(fc.dataP[..]) && Books(b0, heap.blocks, fc.dataP[..], q, r)
    modifies heap, ch, fc, fc.dataP
    ensures heap.Valid() && ch.Valid() && Books(b0, heap.blocks, fc.dataP[..], q, r)
    ensures Includes(old(heap.blocks), heap.blocks) && Grows(old(ch.log), ch.log)
    ensures leg.funcId == funcId && leg.pattern == pattern
    ensures (leg.ok, heap.refusals) == Grants(old(heap.refusals), pattern, 0)
    ensures SuffixOf(ch.outgoing, old(ch.outgoing))
    ensures TookChallenge(leg, Record(fc.func, fc.dataP[..]), heap.blocks, ch.log, |old(ch.log)|, |ch.log|,
            old(Here(ch)), Here(ch))
  {
    hide *;
    var ok := Allocate(heap, fc, funcId, pattern, b0, q, r);
    ghost var b := heap.blocks;
    leg := TakeIn(heap, ch, fc, Leg(funcId, pattern, ok, false), b0, q, r);
    IncludesMore(old(heap.blocks), b, heap.blocks, fc.dataP[..]);
  }

  /** recChallenge into a blank record. */
  method TakeIn(heap: Heap, ch: Channel, fc: FuncCall, leg0: Leg, ghost b0: Blocks, ghost q: seq<Portion>,
                ghost r: seq<Portion>)
    returns (leg: Leg)
    requires heap.Valid() && ch.Valid() && fc.Valid() && fc.func == leg0.funcId
    requires Books(b0, heap.blocks, fc.dataP[..], q, r)
    requires (leg0.ok <==> Shaped(fc.dataP[..], leg0.pattern)) && (!leg0.ok ==> !Copyable(fc.dataP[..]))
    requires RecFrames(Record(fc.func, fc.dataP[..]), heap.blocks)
            == Blank(leg0.funcId, if leg0.ok then leg0.pattern else [])
    modifies heap, ch, fc
    ensures heap.Valid() && ch.Valid() && Books(b0, heap.blocks, fc.dataP[..], q, r)
    ensures OnlyThese(fc.dataP[..], old(heap.blocks), heap.blocks) && Grows(old(ch.log), ch.log)
    ensures leg == leg0.(received := leg.received) && heap.refusals == old(heap.refusals)
    ensures SuffixOf(ch.outgoing, old(ch.outgoing))
    ensures TookChallenge(leg, Record(fc.func, fc.dataP[..]), heap.blocks, ch.log, |old(ch.log)|, |ch.log|,
            old(Here(ch)), Here(ch))
  {
    ghost var p, b := fc.dataP[..], heap.blocks;
    assert RecFrames(Record(fc.func, p), b) == FramesOf(fc.func, p, b);
    ghost var sched := Here(ch);
    hide *;
    var ret := RecChallenge(ch, fc, heap);
    leg := leg0.(received := ret == 0);
    Rewritten(b0, b, heap.blocks, p, q, r);
    Taken(leg, Record(fc.func, p), b, heap.blocks, ch.log, |old(ch.log)|, sched, Here(ch));
  }

  lemma IncludesMore(b: Blocks, b1: Blocks, b2: Blocks, ps: seq<Portion>)
    requires Includes(b, b1) && OnlyThese(ps, b1, b2) && Fresh(ps, b)
    ensures Includes(b, b2)
  {
  }

  /** What recChallenge promises, for a record that was blank before. */
  lemma Taken(leg: Leg, rec: Record, b: Blocks, b': Blocks, log: seq<Act>, lo: nat, e0: Spot, e1: Spot)
    requires Owned(rec.ps, b) && Owned(rec.ps, b') && lo <= |log|
    requires (leg.ok <==> Shaped(rec.ps, leg.pattern)) && (!leg.ok ==> !Copyable(rec.ps))
    requires var blank := FramesOf(leg.funcId, rec.ps, b);
      var rx := RxRun(Lengths(blank), RxInit(Rep(0, BUF_SIZE)), log, lo, |log|);
      && blank == Blank(leg.funcId, if leg.ok then leg.pattern else [])
      && RxEnded(rx, if leg.received then 0 else 1, e0.evs, e1.evs) && e1.input == e0.input
      && Fit(Lengths(blank), Rep(0, BUF_SIZE))
      && After(rx, e1.pos, e1.evs) == ReceiverAfter(Lengths(blank), Rep(0, BUF_SIZE), [], e0.input, e0.pos, e0.evs)
      && |rx.acc| <= |blank| && FramesOf(rec.func, rec.ps, b') == rx.acc + blank[|rx.acc|..]
    ensures TookChallenge(leg, rec, b', log, lo, |log|, e0, e1)
  {
    LengthsStay(leg.funcId, rec.func, rec.ps, b, b');
    SameCount(leg.funcId, rec.func, rec.ps, b, b');
  }

  lemma SameCount(func: uint32, func': uint32, ps: seq<Portion>, b: Blocks, b': Blocks)
    requires Owned(ps, b) && Owned(ps, b') && Lengths(FramesOf(func, ps, b)) == Lengths(FramesOf(func', ps, b'))
    ensures |FramesOf(func, ps, b)| == |FramesOf(func', ps, b')|
  {
    assert |Lengths(FramesOf(func, ps, b))| == |FramesOf(func, ps, b)|;
  }

  lemma BooksOwned(b0: Blocks, b: Blocks, p: seq<Portion>, q: seq<Portion>, r: seq<Portion>)
    requires Books(b0, b, p, q, r)
    ensures Owned(p, b) && Owned(q, b) && Owned(r, b)
  {
  }

  /** sendResponse for one record. */
  method Respond(heap: Heap, ch: Channel, fc: FuncCall) returns (sent: bool)
    requires heap.Valid() && ch.Valid() && fc.Valid() && Owned(fc.dataP[..], heap.blocks)
    modifies ch
    ensures ch.Valid() && Grows(old(ch.log), ch.log)
    ensures SuffixOf(ch.outgoing, old(ch.outgoing))
    ensures GaveResponse(Record(fc.func, fc.dataP[..]), heap.blocks, ch.log, |old(ch.log)|, |ch.log|, sent,
            old(Here(ch)), Here(ch))
  {
    var ret := SendChallenge(ch, fc, heap);
    sent := ret == 0;
  }

  /** The cleanup label: each live block is freed once. */
  method CleanUp(heap: Heap, init: FuncCall, comm: FuncCall, proofs: FuncCall, ghost b0: Blocks)
    requires heap.Valid() && init.Valid() && comm.Valid() && proofs.Valid()
    requires init.dataP != comm.dataP && init.dataP != proofs.dataP && comm.dataP != proofs.dataP
    requires Books(b0, heap.blocks, init.dataP[..], comm.dataP[..], proofs.dataP[..])
    modifies heap, init.dataP, comm.dataP, proofs.dataP
    ensures heap.Valid() && heap.blocks == b0
    ensures AllNull(init.dataP[..]) && AllNull(comm.dataP[..]) && AllNull(proofs.dataP[..])
  {
    ghost var p, q, r := init.dataP[..], comm.dataP[..], proofs.dataP[..];
    FreeOne(heap, init, b0, q, r);
    Rotate(b0, heap.blocks, init.dataP[..], q, r);
    FreeOne(heap, comm, b0, r, init.dataP[..]);
    Rotate(b0, heap.blocks, comm.dataP[..], r, init.dataP[..]);
    FreeOne(heap, proofs, b0, init.dataP[..], comm.dataP[..]);
    NothingOwned(b0, heap.blocks, proofs.dataP[..], init.dataP[..], comm.dataP[..]);
  }

  method FreeOne(heap: Heap, fc: FuncCall, ghost b0: Blocks, ghost q: seq<Portion>, ghost r: seq<Portion>)
    requires heap.Valid() && fc.Valid() && Books(b0, heap.blocks, fc.dataP[..], q, r)
    modifies heap, fc.dataP
    ensures heap.Valid() && AllNull(fc.dataP[..]) && Books(b0, heap.blocks, fc.dataP[..], q, r)
  {
    ghost var p, b := fc.dataP[..], heap.blocks;
    FreeFunc(heap, fc);
    Freed(b0, b, heap.blocks, p, fc.dataP[..], q, r);
  }

  // ---------------------------------------------------------------- the whole session

  /** Completed: all three responses were sent. Stopped: cleanup was reached
      before that. Undefined: a copy through a NULL buffer, on which the program
      makes no promise. */
  datatype Outcome = Completed | Stopped | Undefined

  /** What a session did: the records as they were when the calls began, what
      became of the challenges, the result of the calls, the heap before and after
      them, how many responses were sent, where in the log the exchanges start and
      end, and the input and the write schedule at those places. */
  datatype Trace = Trace(one: Record, two: Record, three: Record, legs: seq<Leg>, puf: int, at: Blocks, after: Blocks,
                         sent: nat, m: seq<nat>, w: seq<Spot>)

  /** The challenges were received, or given up, in the order init, commitment, proofs. */
  ghost predicate ThreeTaken(t: Trace, log: seq<Act>) {
    && |t.m| == |t.w| >= 4 && |t.legs| == 3
    && t.legs[0].funcId == INIT_FUNC_ID && t.legs[0].pattern == PATTERN_INIT_COMMIT
    && t.legs[1].funcId == GET_COMMITMENT_FUNC_ID && t.legs[1].pattern == PATTERN_INIT_COMMIT
    && t.legs[2].funcId == GET_ZK_PROOFS_FUNC_ID && t.legs[2].pattern == PATTERN_PROOFS
    && TookChallenge(t.legs[0], t.one, t.at, log, t.m[0], t.m[1], t.w[0], t.w[1])
    && TookChallenge(t.legs[1], t.two, t.at, log, t.m[1], t.m[2], t.w[1], t.w[2])
    && TookChallenge(t.legs[2], t.three, t.at, log, t.m[2], t.m[3], t.w[2], t.w[3])
  }

  /** The responses were sent in the same order, up to the first that failed. */
  ghost predicate ThreeGiven(t: Trace, log: seq<Act>) {
    && |t.m| == |t.w| == 7 && t.sent <= 3
    && GaveResponse(t.one, t.after, log, t.m[3], t.m[4], t.sent >= 1, t.w[3], t.w[4])
    && (if t.sent >= 1 then GaveResponse(t.two, t.after, log, t.m[4], t.m[5], t.sent >= 2, t.w[4], t.w[5])
        else t.m[5] == t.m[4] && t.w[5] == t.w[4])
    && (if t.sent >= 2 then GaveResponse(t.three, t.after, log, t.m[5], t.m[6], t.sent == 3, t.w[5], t.w[6])
        else t.m[6] == t.m[5] && t.w[6] == t.w[5])
  }

  /** The allocations of all three records succeed. */
  predicate AllGranted(refusals: seq<bool>) {
    var (a, r1) := Grants(refusals, PATTERN_INIT_COMMIT, 0);
    var (b, r2) := Grants(r1, PATTERN_INIT_COMMIT, 0);
    a && b && Grants(r2, PATTERN_PROOFS, 0).0
  }

  /** They do exactly when none of the first twelve allocations is refused. */
  lemma AllGrantedExactly(refusals: seq<bool>)
    ensures AllGranted(refusals) <==> NoRefusal(refusals, 0, 12)
  {
    var r1, r2 := refusals[Min(|refusals|, 4)..], refusals[Min(|refusals|, 8)..];
    assert r1[Min(|r1|, 4)..] == r2;
    GrantsAll(refusals, PATTERN_INIT_COMMIT, 0);
    GrantsAll(r1, PATTERN_INIT_COMMIT, 0);
    GrantsAll(r2, PATTERN_PROOFS, 0);
    hide Grants;
    LaterCalls(refusals, 4);
    LaterCalls(refusals, 8);
  }

  lemma LaterCalls(refusals: seq<bool>, n: nat)
    ensures NoRefusal(refusals[Min(|refusals|, n)..], 0, 4) <==> NoRefusal(refusals, n, n + 4)
  {
    var rest := refusals[Min(|refusals|, n)..];
    forall k: nat | k < |rest|
      ensures rest[k] == refusals[n + k]
    {
    }
    if NoRefusal(rest, 0, 4) {
      forall k | n <= k < n + 4 && k < |refusals|
        ensures !refusals[k]
      {
        assert rest[k - n] == refusals[k];
      }
    }
  }

  /** All buffers of all three records were allocated. */
  ghost predicate AllAllocated(t: Trace) {
    |t.legs| == 3 && t.legs[0].ok && t.legs[1].ok && t.legs[2].ok
  }

  ghost predicate AllReceived(t: Trace) {
    |t.legs| == 3 && t.legs[0].received && t.legs[1].received && t.legs[2].received
  }

  lemma {:induction false} RxKept(lens: seq<nat>, rx: Rx, l0: seq<Act>, l1: seq<Act>, lo: nat, hi: nat)
    requires lo <= hi <= |l0| && Grows(l0, l1)
    ensures RxRun(lens, rx, l0, lo, hi) == RxRun(lens, rx, l1, lo, hi)
    decreases hi - lo
  {
    if lo < hi {
      RxKept(lens, RxStep(lens, rx, l0[lo]), l0, l1, lo + 1, hi);
    }
  }

  lemma {:induction false} TxKept(frames: seq<seq<byte>>, tx: Tx, l0: seq<Act>, l1: seq<Act>, lo: nat, hi: nat)
    requires lo <= hi <= |l0| && Grows(l0, l1)
    ensures TxRun(frames, tx, l0, lo, hi) == TxRun(frames, tx, l1, lo, hi)
    decreases hi - lo
  {
    if lo < hi {
      TxKept(frames, TxStep(frames, tx, l0[lo]), l0, l1, lo + 1, hi);
    }
  }

  lemma TookLater(leg: Leg, rec: Record, b: Blocks, b': Blocks, l0: seq<Act>, l1: seq<Act>, lo: nat, hi: nat,
                  e0: Spot, e1: Spot)
    requires TookChallenge(leg, rec, b, l0, lo, hi, e0, e1)
    requires Owned(rec.ps, b') && Includes(b, b') && Grows(l0, l1)
    ensures TookChallenge(leg, rec, b', l1, lo, hi, e0, e1)
  {
    SameFrames(rec.ps, b, b', 0, |rec.ps|);
    RxKept(Lengths(RecFrames(rec, b)), RxInit(Rep(0, BUF_SIZE)), l0, l1, lo, hi);
  }

  lemma GaveLater(rec: Record, b: Blocks, l0: seq<Act>, l1: seq<Act>, lo: nat, hi: nat, sent: bool,
                  e0: Spot, e1: Spot)
    requires GaveResponse(rec, b, l0, lo, hi, sent, e0, e1) && Grows(l0, l1)
    ensures GaveResponse(rec, b, l1, lo, hi, sent, e0, e1)
  {
    TxKept(RecFrames(rec, b), TX_INIT, l0, l1, lo, hi);
  }

  /** The three challenges, in the order in which the server sends them. */
  method ReceiveChallenges(heap: Heap, ch: Channel, init: FuncCall, comm: FuncCall, proofs: FuncCall, ghost b0: Blocks)
    returns (ok: bool, ghost t: Trace)
    requires heap.Valid() && ch.Valid() && init.Valid() && comm.Valid() && proofs.Valid()
    requires init != comm && init != proofs && comm != proofs
    requires init.dataP != comm.dataP && init.dataP != proofs.dataP && comm.dataP != proofs.dataP
    requires AllNull(init.dataP[..]) && AllNull(comm.dataP[..]) && AllNull(proofs.dataP[..]) && heap.blocks == b0
    modifies heap, ch, init, init.dataP, comm, comm.dataP, proofs, proofs.dataP
    ensures heap.Valid() && ch.Valid() && Grows(old(ch.log), ch.log)
    ensures Books(b0, heap.blocks, init.dataP[..], comm.dataP[..], proofs.dataP[..])
    ensures t.one == Record(init.func, init.dataP[..]) && t.two == Record(comm.func, comm.dataP[..])
    ensures t.three == Record(proofs.func, proofs.dataP[..]) && t.at == heap.blocks
    ensures ok == AllGranted(old(heap.refusals)) && (ok <==> AllAllocated(t))
    ensures ThreeTaken(t, ch.log) && |t.m| == |t.w| == 4 && t.m[0] == |old(ch.log)| && t.m[3] == |ch.log|
    ensures t.w[0] == old(Here(ch)) && t.w[3] == Here(ch)
  {
    hide TookChallenge, SuffixOf, Grants;
    ghost var n, w0 := |ch.log|, Here(ch);
    NothingOwned(b0, heap.blocks, init.dataP[..], comm.dataP[..], proofs.dataP[..]);
    var leg1 := SetUp(heap, ch, init, INIT_FUNC_ID, PATTERN_INIT_COMMIT, b0, comm.dataP[..], proofs.dataP[..]);
    ghost var l1, b1, w1 := ch.log, heap.blocks, Here(ch);
    Rotate(b0, b1, init.dataP[..], comm.dataP[..], proofs.dataP[..]);
    hide Books;
    var leg2 := SetUp(heap, ch, comm, GET_COMMITMENT_FUNC_ID, PATTERN_INIT_COMMIT, b0, proofs.dataP[..],
        init.dataP[..]);
    ghost var l2, b2, w2 := ch.log, heap.blocks, Here(ch);
    Rotate(b0, b2, comm.dataP[..], proofs.dataP[..], init.dataP[..]);
    var leg3 := SetUp(heap, ch, proofs, GET_ZK_PROOFS_FUNC_ID, PATTERN_PROOFS, b0, init.dataP[..], comm.dataP[..]);
    Rotate(b0, heap.blocks, proofs.dataP[..], init.dataP[..], comm.dataP[..]);
    BooksOwned(b0, heap.blocks, init.dataP[..], comm.dataP[..], proofs.dataP[..]);
    ok := leg1.ok && leg2.ok && leg3.ok;
    t := Trace(Record(init.func, init.dataP[..]), Record(comm.func, comm.dataP[..]),
        Record(proofs.func, proofs.dataP[..]),
               [leg1, leg2, leg3], -1, heap.blocks, heap.blocks, 0, [n, |l1|, |l2|, |ch.log|], [w0, w1, w2, Here(ch)]);
    TookLater(leg1, t.one, b1, t.at, l1, ch.log, n, |l1|, w0, w1);
    TookLater(leg2, t.two, b2, t.at, l2, ch.log, |l1|, |l2|, w1, w2);
  }

  /** The three responses; the first one that fails ends the session. */
  method SendResponses(heap: Heap, ch: Channel, init: FuncCall, comm: FuncCall, proofs: FuncCall, ghost t0: Trace)
    returns (sent: nat, ghost t: Trace)
    requires heap.Valid() && ch.Valid() && init.Valid() && comm.Valid() && proofs.Valid()
    requires t0.one == Record(init.func, init.dataP[..]) && t0.two == Record(comm.func, comm.dataP[..])
    requires t0.three == Record(proofs.func, proofs.dataP[..]) && t0.after == heap.blocks
    requires Owned(init.dataP[..], heap.blocks) && Owned(comm.dataP[..], heap.blocks)
    requires Owned(proofs.dataP[..], heap.blocks)
    requires |t0.m| == |t0.w| == 4 && t0.m[3] == |ch.log| && t0.w[3] == Here(ch)
    modifies ch
    ensures ch.Valid() && Grows(old(ch.log), ch.log)
    ensures t == t0.(sent := sent, m := t.m, w := t.w) && |t.m| == |t.w| == 7 && t.m[..4] == t0.m && t.w[..4] == t0.w
    ensures t.m[6] == |ch.log| && t.w[6] == Here(ch)
    ensures ThreeGiven(t, ch.log)
  {
    hide GaveResponse, Owned, SuffixOf;
    sent, t := 0, t0;
    ghost var w0 := Here(ch);
    var ok := Respond(heap, ch, init);
    ghost var l1, w1 := ch.log, Here(ch);
    if !ok {
      t := Given(t0, ch.log, |l1|, |l1|, |l1|, w1, w1, w1, 0);
      return 0, t;
    }
    ok := Respond(heap, ch, comm);
    ghost var l2, w2 := ch.log, Here(ch);
    GaveLater(t0.one, t0.after, l1, l2, t0.m[3], |l1|, true, w0, w1);
    if !ok {
      t := Given(t0, ch.log, |l1|, |l2|, |l2|, w1, w2, w2, 1);
      return 1, t;
    }
    ok := Respond(heap, ch, proofs);
    GaveLater(t0.one, t0.after, l2, ch.log, t0.m[3], |l1|, true, w0, w1);
    GaveLater(t0.two, t0.after, l2, ch.log, |l1|, |l2|, true, w1, w2);
    sent := if ok then 3 else 2;
    t := Given(t0, ch.log, |l1|, |l2|, |ch.log|, w1, w2, Here(ch), sent);
  }

  /** The responses, entered in the trace. */
  ghost function Given(t0: Trace, log: seq<Act>, n1: nat, n2: nat, n3: nat, w1: Spot, w2: Spot, w3: Spot,
                       sent: nat): (t: Trace)
    requires |t0.m| == |t0.w| == 4 && sent <= 3
    requires GaveResponse(t0.one, t0.after, log, t0.m[3], n1, sent >= 1, t0.w[3], w1)
    requires if sent >= 1 then GaveResponse(t0.two, t0.after, log, n1, n2, sent >= 2, w1, w2) else n2 == n1 && w2 == w1
    requires if sent >= 2 then GaveResponse(t0.three, t0.after, log, n2, n3, sent == 3, w2, w3)
             else n3 == n2 && w3 == w2
    ensures t == t0.(sent := sent, m := t.m, w := t.w) && |t.m| == |t.w| == 7
    ensures t.m[..4] == t0.m && t.w[..4] == t0.w && t.m[6] == n3 && t.w[6] == w3
    ensures ThreeGiven(t, log)
  {
    t0.(sent := sent, m := t0.m + [n1, n2, n3], w := t0.w + [w1, w2, w3])
  }

  // ---------------------------------------------------------------- the calls

  lemma UsableRecords(one: Record, two: Record, three: Record, b0: Blocks, b: Blocks)
    requires Books(b0, b, one.ps, two.ps, three.ps)
    requires Shaped(one.ps, PATTERN_INIT_COMMIT) && Shaped(two.ps, PATTERN_INIT_COMMIT)
    requires Shaped(three.ps, PATTERN_PROOFS)
    ensures Ready(one, two, three, b)
  {
  }

  lemma AfterCalls(g: Guest, seen0: seq<seq<byte>>, seen: seq<seq<byte>>, one: Record, two: Record, three: Record,
                   b0: Blocks, b: Blocks, b': Blocks)
    requires EnumSize(g.ct) && Ready(one, two, three, b) && Books(b0, b, one.ps, two.ps, three.ps)
    requires Challenged(g.ta, g.ct, g.shm, seen0, seen, one, two, three, b, b')
    ensures Books(b0, b', one.ps, two.ps, three.ps)
  {
    hide Copied, SawInvoke, SawOpen, SawClose, Staged;
  }

  /** challenge_puf on the records of the session, whose result is not looked at. */
  method PutToPuf(heap: Heap, guest: Guest, init: FuncCall, comm: FuncCall, proofs: FuncCall, ok: bool,
                  ghost b0: Blocks)
    returns (res: int)
    requires heap.Valid() && guest.Valid() && init.Valid() && comm.Valid() && proofs.Valid() && !guest.pending
    requires guest.param != init.dataP as object && guest.param != comm.dataP as object
    requires guest.param != proofs.dataP as object
    requires Books(b0, heap.blocks, init.dataP[..], comm.dataP[..], proofs.dataP[..])
    requires ok ==> Shaped(init.dataP[..], PATTERN_INIT_COMMIT) && Shaped(comm.dataP[..], PATTERN_INIT_COMMIT)
                    && Shaped(proofs.dataP[..], PATTERN_PROOFS)
    requires guest.bound && guest.sessionArg.ret == 0 ==> ok
    modifies heap, guest, guest.page, guest.param
    ensures heap.Valid() && Books(b0, heap.blocks, init.dataP[..], comm.dataP[..], proofs.dataP[..])
    ensures init.dataP[..] == old(init.dataP[..]) && comm.dataP[..] == old(comm.dataP[..])
    ensures proofs.dataP[..] == old(proofs.dataP[..])
    ensures res == if guest.bound && old(guest.sessionArg.ret) == 0 then 0 else -1
    ensures res != 0 ==> heap.blocks == old(heap.blocks)
    ensures !guest.bound ==> guest.seen == old(guest.seen)
    ensures res == 0 ==>
              var one, two, three := Record(init.func, init.dataP[..]), Record(comm.func, comm.dataP[..]),
                  Record(proofs.func, proofs.dataP[..]);
              && ok && Ready(one, two, three, old(heap.blocks))
              && Challenged(guest.ta, guest.ct, guest.shm, old(guest.seen), guest.seen, one, two, three,
                  old(heap.blocks), heap.blocks)
  {
    ghost var one := Record(init.func, init.dataP[..]);
    ghost var two := Record(comm.func, comm.dataP[..]);
    ghost var three := Record(proofs.func, proofs.dataP[..]);
    ghost var at, seen0 := heap.blocks, guest.seen;
    if ok {
      UsableRecords(one, two, three, b0, at);
    }
    res := guest.ChallengePuf(init, comm, proofs, heap);
    if res == 0 {
      AfterCalls(guest, seen0, guest.seen, one, two, three, b0, at, heap.blocks);
    }
  }

  // ---------------------------------------------------------------- all of it

  /** What the outcome says about the exchanges and the calls: the outcome is
      undefined exactly when the calls would copy through a missing buffer. */
  ghost predicate Told(out: Outcome, t: Trace, log: seq<Act>, g: Guest, asked: bool, seen0: seq<seq<byte>>,
                       seen: seq<seq<byte>>)
    requires EnumSize(g.ct)
  {
    && ThreeTaken(t, log)
    && (Ready(t.one, t.two, t.three, t.at) <==> AllAllocated(t))
    && (out == Undefined <==> asked && !Ready(t.one, t.two, t.three, t.at))
    && (out != Undefined ==>
          && Owned(t.one.ps, t.after) && Owned(t.two.ps, t.after) && Owned(t.three.ps, t.after)
          && ThreeGiven(t, log) && t.m[6] == |log| && Consumes(log, t.m[0], t.m[6], t.w[0], t.w[6])
          && (out == Completed <==> t.sent == 3)
          && t.puf == (if asked then 0 else -1)
          && (!asked ==> t.after == t.at)
          && (asked ==> Ready(t.one, t.two, t.three, t.at)
                        && Challenged(g.ta, g.ct, g.shm, seen0, seen, t.one, t.two, t.three, t.at, t.after)))
  }

  /** The records, as the calls need them. */
  lemma ShapedRecords(t: Trace, log: seq<Act>)
    requires ThreeTaken(t, log) && AllAllocated(t)
    ensures Shaped(t.one.ps, PATTERN_INIT_COMMIT) && Shaped(t.two.ps, PATTERN_INIT_COMMIT)
    ensures Shaped(t.three.ps, PATTERN_PROOFS)
  {
  }

  /** A buffer that could not be allocated is one that the calls copy into; so all
      their copies are in bounds if and only if every allocation succeeded. */
  lemma ReadyExactly(t: Trace, log: seq<Act>, b0: Blocks)
    requires ThreeTaken(t, log) && Books(b0, t.at, t.one.ps, t.two.ps, t.three.ps)
    ensures Ready(t.one, t.two, t.three, t.at) <==> AllAllocated(t)
  {
    hide RxEnded, Heard, RecFrames, Shaped;
    if AllAllocated(t) {
      ShapedRecords(t, log);
      UsableRecords(t.one, t.two, t.three, b0, t.at);
    }
  }

  /** The ids that the records start with, and the lengths of their portions. */
  lemma IdsAndShapes(t: Trace, log: seq<Act>)
    requires ThreeTaken(t, log) && AllAllocated(t)
    ensures t.legs[0].funcId == 0x0011_2233 && t.legs[1].funcId == 0x1122_3344 && t.legs[2].funcId == 0x2233_4455
    ensures |t.one.ps| == |t.two.ps| == |t.three.ps| == 4
    ensures forall i | 0 <= i < 4 ::
              t.one.ps[i].len == 32 && t.two.ps[i].len == 32 && t.three.ps[i].len == if i < 2 then 32 else 64
  {
    ShapedRecords(t, log);
  }

  lemma TakenLater(t: Trace, t': Trace, l0: seq<Act>, l1: seq<Act>)
    requires ThreeTaken(t, l0) && Grows(l0, l1) && |t.m| == 4 <= |t'.m| == |t'.w| && t'.m[..4] == t.m
    requires t'.w[..4] == t.w
    requires t'.one == t.one && t'.two == t.two && t'.three == t.three && t'.legs == t.legs && t'.at == t.at
    ensures ThreeTaken(t', l1)
  {
    TookLater(t.legs[0], t.one, t.at, t.at, l0, l1, t.m[0], t.m[1], t.w[0], t.w[1]);
    TookLater(t.legs[1], t.two, t.at, t.at, l0, l1, t.m[1], t.m[2], t.w[1], t.w[2]);
    TookLater(t.legs[2], t.three, t.at, t.at, l0, l1, t.m[2], t.m[3], t.w[2], t.w[3]);
    hide TookChallenge;
    forall i | 0 <= i < 4
      ensures t'.m[i] == t.m[i] && t'.w[i] == t.w[i]
    {
      assert t'.m[..4][i] == t'.m[i] && t'.w[..4][i] == t'.w[i];
    }
  }

  /** The parts of a session that reached the responses, put together. */
  lemma TellAll(t0: Trace, t1: Trace, t: Trace, l0: seq<Act>, log: seq<Act>,
                g: Guest, seen0: seq<seq<byte>>, seen: seq<seq<byte>>)
    requires EnumSize(g.ct) && ThreeTaken(t0, l0) && Grows(l0, log) && |t0.m| == |t0.w| == 4
    requires Ready(t0.one, t0.two, t0.three, t0.at) <==> AllAllocated(t0)
    requires t1 == t0.(puf := t1.puf, after := t1.after) && (t1.puf == 0 || t1.puf == -1)
    requires t == t1.(sent := t.sent, m := t.m, w := t.w) && |t.m| == |t.w| == 7
    requires t.m[..4] == t0.m && t.w[..4] == t0.w && t.m[6] == |log|
    requires ThreeGiven(t, log) && Consumes(log, t0.m[0], |log|, t0.w[0], t.w[6])
    requires Owned(t1.one.ps, t1.after) && Owned(t1.two.ps, t1.after) && Owned(t1.three.ps, t1.after)
    requires t1.puf != 0 ==> t1.after == t1.at
    requires t1.puf == 0 ==>
               && AllAllocated(t0) && Ready(t1.one, t1.two, t1.three, t1.at)
               && Challenged(g.ta, g.ct, g.shm, seen0, seen, t1.one, t1.two, t1.three, t1.at, t1.after)
    ensures Told(if t.sent == 3 then Completed else Stopped, t, log, g, t1.puf == 0, seen0, seen)
    ensures t.m[0] == t0.m[0] && t.w[0] == t0.w[0]
  {
    hide ThreeTaken, ThreeGiven, Challenged, Ready, Consumes, Owned;
    TakenLater(t0, t, l0, log);
    assert t.m[..4][0] == t.m[0] && t.w[..4][0] == t.w[0];
  }

  /** Everything between the connection and the cleanup. */
  method Converse(heap: Heap, ch: Channel, guest: Guest, init: FuncCall, comm: FuncCall, proofs: FuncCall,
                  ghost b0: Blocks)
    returns (out: Outcome, ghost t: Trace)
    requires heap.Valid() && ch.Valid() && guest.Valid() && init.Valid() && comm.Valid() && proofs.Valid()
    requires !guest.pending
    requires init != comm && init != proofs && comm != proofs
    requires init.dataP != comm.dataP && init.dataP != proofs.dataP && comm.dataP != proofs.dataP
    requires guest.param != init.dataP as object && guest.param != comm.dataP as object
    requires guest.param != proofs.dataP as object
    requires AllNull(init.dataP[..]) && AllNull(comm.dataP[..]) && AllNull(proofs.dataP[..]) && heap.blocks == b0
    modifies heap, ch, guest, guest.page, guest.param, init, init.dataP, comm, comm.dataP, proofs, proofs.dataP
    ensures ch.Valid() && heap.Valid() && Grows(old(ch.log), ch.log)
    ensures Books(b0, heap.blocks, init.dataP[..], comm.dataP[..], proofs.dataP[..])
    ensures out == Undefined <==> guest.bound && old(guest.sessionArg.ret) == 0 && !AllGranted(old(heap.refusals))
    ensures Told(out, t, ch.log, guest, guest.bound && old(guest.sessionArg.ret) == 0, old(guest.seen), guest.seen)
    ensures t.m != [] && t.m[0] == |old(ch.log)| && t.w != [] && t.w[0] == old(Here(ch))
    ensures out != Undefined ==> |t.w| == 7 && t.w[6] == Here(ch)
  {
    hide ThreeTaken, ThreeGiven, Challenged, Ready, Shaped, Owned, Apart, Books;
    ghost var t0, seen0;
    seen0 := guest.seen;
    var ok, sent;
    ok, t0 := ReceiveChallenges(heap, ch, init, comm, proofs, b0);
    ghost var l0 := ch.log;
    ReadyExactly(t0, l0, b0);
    if guest.bound && guest.sessionArg.ret == 0 && !ok {
      return Undefined, t0;
    }
    if ok {
      ShapedRecords(t0, l0);
    }
    var res := PutToPuf(heap, guest, init, comm, proofs, ok, b0);
    BooksOwned(b0, heap.blocks, init.dataP[..], comm.dataP[..], proofs.dataP[..]);
    ghost var t1 := t0.(puf := res, after := heap.blocks);
    sent, t := SendResponses(heap, ch, init, comm, proofs, t1);
    out := if sent == 3 then Completed else Stopped;
    ReadBetween(old(ch.log), ch.log, ch.all, old(ch.pos), ch.pos);
    TellAll(t0, t1, t, l0, ch.log, guest, seen0, guest.seen);
  }

  /** The client's part of the session from the first initFunc to the cleanup. */
  method TestSession(connected: bool, heap: Heap, ch: Channel, guest: Guest, init: FuncCall, comm: FuncCall,
                     proofs: FuncCall)
    returns (out: Outcome, ghost t: Trace)
    requires heap.Valid() && ch.Valid() && guest.Valid() && init.Valid() && comm.Valid() && proofs.Valid()
    requires !guest.pending
    requires init != comm && init != proofs && comm != proofs
    requires init.dataP != comm.dataP && init.dataP != proofs.dataP && comm.dataP != proofs.dataP
    requires guest.param != init.dataP as object && guest.param != comm.dataP as object
    requires guest.param != proofs.dataP as object
    requires AllNull(init.dataP[..]) && AllNull(comm.dataP[..]) && AllNull(proofs.dataP[..])
    modifies heap, ch, guest, guest.page, guest.param, init, init.dataP, comm, comm.dataP, proofs, proofs.dataP
    ensures ch.Valid() && heap.Valid() && Grows(old(ch.log), ch.log)
    ensures out != Undefined ==> heap.blocks == old(heap.blocks)
    ensures out != Undefined ==> AllNull(init.dataP[..]) && AllNull(comm.dataP[..]) && AllNull(proofs.dataP[..])
    ensures out == Undefined <==>
              connected && guest.bound && old(guest.sessionArg.ret) == 0 && !AllGranted(old(heap.refusals))
    ensures !connected ==> out == Stopped && ch.log == old(ch.log) && guest.seen == old(guest.seen)
    ensures connected ==> t.m != [] && t.m[0] == |old(ch.log)| && t.w != [] && t.w[0] == old(Here(ch))
    ensures connected && out != Undefined ==> |t.w| == 7 && t.w[6] == Here(ch)
    ensures connected ==>
              Told(out, t, ch.log, guest, guest.bound && old(guest.sessionArg.ret) == 0, old(guest.seen), guest.seen)
  {
    hide Books, Told;
    out := Stopped;
    ghost var b0 := heap.blocks;
    NothingOwned(b0, b0, init.dataP[..], comm.dataP[..], proofs.dataP[..]);
    if connected {
      out, t := Converse(heap, ch, guest, init, comm, proofs, b0);
    } else {
      t := Trace(Record(0, []), Record(0, []), Record(0, []), [], -1, map[], map[], 0, [], []);
    }
    if out != Undefined {
      CleanUp(heap, init, comm, proofs, b0);
    }
  }
}
