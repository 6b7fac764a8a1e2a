/** From the server to the other VM and back, over both protocols. */
module EndToEnd {
  import opened Bytes
  import opened Channel
  import opened Reception
  import opened Protocol
  import opened Memory
  import opened Challenge
  import opened Streams
  import opened Outcomes
  import opened SharedPage
  import opened Staging
  import opened PufCaller
  import opened Pages
  import opened Session

  /** A message is a function id and four portions with the sizes of a pattern. */
  predicate Message(frames: seq<seq<byte>>, pattern: seq<byte>)
    requires |pattern| == DATA_PORTIONS
  {
    |frames| == 5 && |frames[0]| == ID_LEN && forall i: nat | i < 4 :: |frames[1 + i]| == pattern[i]
  }

  function PatternOf(k: nat): (p: seq<byte>)
    ensures |p| == DATA_PORTIONS && forall i | 0 <= i < |p| :: p[i] > 0
  {
    if k < 2 then PATTERN_INIT_COMMIT else PATTERN_PROOFS
  }

  function RecordOf(t: Trace, k: nat): Record {
    if k == 0 then t.one else if k == 1 then t.two else t.three
  }

  /** The first bytes of the four slots of a page. */
  function Results(r: seq<byte>, ct: nat, pattern: seq<byte>): (d: seq<seq<byte>>)
    requires IsPage(r) && EnumSize(ct) && |pattern| == DATA_PORTIONS
    ensures |d| == 4 && forall i | 0 <= i < 4 :: |d[i]| == pattern[i]
  {
    seq(4, i requires 0 <= i < 4 => Get(r, OffPayload(ct) + SLOT * i, pattern[i]))
  }

  ghost predicate Got(rec: Record, blocks: Blocks, log: seq<Act>, lo: nat, hi: nat)
    requires lo <= hi <= |log| && Owned(rec.ps, blocks)
  {
    Heard(rec, blocks, log, lo, hi).pc.RxDone? && Heard(rec, blocks, log, lo, hi).acc == RecFrames(rec, blocks)
  }

  ghost predicate Gave(rec: Record, blocks: Blocks, log: seq<Act>, lo: nat, hi: nat)
    requires lo <= hi <= |log| && Owned(rec.ps, blocks)
  {
    TxRun(RecFrames(rec, blocks), TX_INIT, log, lo, hi).pc.TxDone?
  }

  ghost predicate ThreeOwned(t: Trace, blocks: Blocks) {
    Owned(t.one.ps, blocks) && Owned(t.two.ps, blocks) && Owned(t.three.ps, blocks)
  }

  ghost predicate ThreeShaped(t: Trace) {
    Shaped(t.one.ps, PATTERN_INIT_COMMIT) && Shaped(t.two.ps, PATTERN_INIT_COMMIT) && Shaped(t.three.ps, PATTERN_PROOFS)
  }

  /** All six exchanges of the client were completed, with all buffers there. */
  ghost predicate Succeeded(t: Trace, c: seq<Act>) {
    && Cuts(c, t.m, 0, 6) && ThreeOwned(t, t.at) && ThreeOwned(t, t.after)
    && Got(t.one, t.at, c, t.m[0], t.m[1]) && Gave(t.one, t.after, c, t.m[3], t.m[4])
    && Got(t.two, t.at, c, t.m[1], t.m[2]) && Gave(t.two, t.after, c, t.m[4], t.m[5])
    && Got(t.three, t.at, c, t.m[2], t.m[3]) && Gave(t.three, t.after, c, t.m[5], t.m[6])
    && (forall k: nat | k < 3 :: Shaped(RecordOf(t, k).ps, PatternOf(k)))
  }

  lemma TookWell(leg: Leg, rec: Record, b: Blocks, c: seq<Act>, lo: nat, hi: nat, e0: Spot, e1: Spot)
    requires TookChallenge(leg, rec, b, c, lo, hi, e0, e1) && leg.received && leg.ok
    ensures lo <= hi <= |c| && Owned(rec.ps, b) && Got(rec, b, c, lo, hi) && Shaped(rec.ps, leg.pattern)
  {
    ReceivedWhole(leg, rec, b, c, lo, hi, e0, e1);
  }

  lemma GaveWell(rec: Record, b: Blocks, c: seq<Act>, lo: nat, hi: nat, e0: Spot, e1: Spot)
    requires GaveResponse(rec, b, c, lo, hi, true, e0, e1)
    ensures lo <= hi <= |c| && Owned(rec.ps, b) && Gave(rec, b, c, lo, hi)
  {
  }

  /** A session that received everything and sent everything has. */
  lemma WentWell(t: Trace, c: seq<Act>)
    requires ThreeTaken(t, c) && ThreeGiven(t, c) && t.sent == 3 && AllReceived(t) && AllAllocated(t)
    ensures Succeeded(t, c)
  {
    hide TookChallenge, GaveResponse, Got, Gave, Shaped, Owned;
    TookWell(t.legs[0], t.one, t.at, c, t.m[0], t.m[1], t.w[0], t.w[1]);
    TookWell(t.legs[1], t.two, t.at, c, t.m[1], t.m[2], t.w[1], t.w[2]);
    TookWell(t.legs[2], t.three, t.at, c, t.m[2], t.m[3], t.w[2], t.w[3]);
    GaveWell(t.one, t.after, c, t.m[3], t.m[4], t.w[3], t.w[4]);
    GaveWell(t.two, t.after, c, t.m[4], t.m[5], t.w[4], t.w[5]);
    GaveWell(t.three, t.after, c, t.m[5], t.m[6], t.w[5], t.w[6]);
  }

  /** The server sends the messages and completes the reception of messages of
      the same shapes. The client's input from the place at is what the server
      wrote, perhaps cut off; the server read what the client wrote, likewise. */
  ghost predicate Served(fs: seq<seq<seq<byte>>>, s: seq<Act>, sm: seq<nat>, c: seq<Act>, cm: seq<nat>, at: Spot) {
    && |fs| == 3 && (forall k: nat | k < 3 :: Message(fs[k], PatternOf(k)))
    && Cuts(s, sm, 0, 6) && Cuts(c, cm, 0, 6) && sm[0] <= sm[6] && cm[0] <= cm[6]
    && (forall k: nat | k < 3 :: TxRun(fs[k], TX_INIT, s, sm[k], sm[k + 1]).pc.TxDone?)
    && (forall k: nat | k < 3 ::
          RxRun([ID_LEN] + PatternOf(k), RxInit(Rep(0, BUF_SIZE)), s, sm[3 + k], sm[4 + k]).pc.RxDone?)
    && FedFrom(at.input, at.pos, WritesIn(s, sm[0], sm[6]))
    && Fed(ReadsIn(s, sm[0], sm[6]), WritesIn(c, cm[0], cm[6]))
  }

  /** What the server gets for its k-th message. */
  function Answer(s: seq<Act>, sm: seq<nat>, k: nat): seq<seq<byte>>
    requires k < 3 && Cuts(s, sm, 0, 6)
  {
    RxRun([ID_LEN] + PatternOf(k), RxInit(Rep(0, BUF_SIZE)), s, sm[3 + k], sm[4 + k]).acc
  }

  lemma MessageLengths(frames: seq<seq<byte>>, pattern: seq<byte>)
    requires |pattern| == DATA_PORTIONS && Message(frames, pattern) && forall i | 0 <= i < |pattern| :: pattern[i] > 0
    ensures Lengths(frames) == [ID_LEN] + pattern && Sendable(frames)
  {
    forall i | 0 <= i < 5
      ensures Lengths(frames)[i] == ([ID_LEN] + pattern)[i]
    {
      if i > 0 {
        assert |frames[1 + (i - 1)]| == pattern[i - 1];
      }
    }
  }

  lemma RecordIsMessage(rec: Record, pattern: seq<byte>, blocks: Blocks)
    requires |pattern| == DATA_PORTIONS && Owned(rec.ps, blocks) && Shaped(rec.ps, pattern)
    ensures Message(RecFrames(rec, blocks), pattern)
  {
    FullFrames(rec, pattern, blocks);
  }

  ghost function Responses(t: Trace): (gs: seq<seq<seq<byte>>>)
    requires ThreeOwned(t, t.after)
    ensures |gs| == 3 && forall k: nat | k < 3 :: gs[k] == RecFrames(RecordOf(t, k), t.after)
  {
    [RecFrames(t.one, t.after), RecFrames(t.two, t.after), RecFrames(t.three, t.after)]
  }

  /** One message at the client: received with the server's lengths, and sent. */
  lemma OneMessage(t: Trace, c: seq<Act>, f: seq<seq<byte>>, k: nat)
    requires k < 3 && Succeeded(t, c) && Message(f, PatternOf(k))
    ensures Sendable(f) && RxRun(Lengths(f), RxInit(Rep(0, BUF_SIZE)), c, t.m[k], t.m[k + 1]).pc.RxDone?
    ensures RxRun(Lengths(f), RxInit(Rep(0, BUF_SIZE)), c, t.m[k], t.m[k + 1]).acc == RecFrames(RecordOf(t, k), t.at)
    ensures Lengths(Responses(t)[k]) == [ID_LEN] + PatternOf(k) && Sendable(Responses(t)[k])
    ensures TxRun(Responses(t)[k], TX_INIT, c, t.m[3 + k], t.m[3 + k + 1]).pc.TxDone?
  {
    hide RxRun, TxRun, Sendable, Message, Lengths, Fed;
    MessageLengths(f, PatternOf(k));
    RecordIsMessage(RecordOf(t, k), PatternOf(k), t.at);
    MessageLengths(RecFrames(RecordOf(t, k), t.at), PatternOf(k));
    RecordIsMessage(RecordOf(t, k), PatternOf(k), t.after);
    MessageLengths(Responses(t)[k], PatternOf(k));
  }

  /** The client's runs, as receptions of the server's messages. */
  lemma ClientSide(t: Trace, c: seq<Act>, fs: seq<seq<seq<byte>>>)
    requires Succeeded(t, c) && |fs| == 3 && forall k: nat | k < 3 :: Message(fs[k], PatternOf(k))
    ensures DoneReceiving(fs, Rep(0, BUF_SIZE), c, t.m, 0) && DoneSending(Responses(t), c, t.m, 3)
  {
    hide RxRun, TxRun, Lengths, Sendable, Message, Got, Gave, Shaped, Responses;
    forall k: nat | k < 3
      ensures Sendable(fs[k]) && RxRun(Lengths(fs[k]), RxInit(Rep(0, BUF_SIZE)), c, t.m[k], t.m[k + 1]).pc.RxDone?
      ensures Sendable(Responses(t)[k]) && TxRun(Responses(t)[k], TX_INIT, c, t.m[3 + k], t.m[3 + k + 1]).pc.TxDone?
    {
      OneMessage(t, c, fs[k], k);
    }
  }

  /** The server's runs, as receptions of the client's messages. */
  lemma ServerSide(t: Trace, c: seq<Act>, fs: seq<seq<seq<byte>>>, s: seq<Act>, sm: seq<nat>)
    requires Succeeded(t, c) && t.w != [] && Served(fs, s, sm, c, t.m, t.w[0])
    ensures DoneSending(fs, s, sm, 0) && DoneReceiving(Responses(t), Rep(0, BUF_SIZE), s, sm, 3)
    ensures forall k: nat | k < 3 :: Lengths(Responses(t)[k]) == [ID_LEN] + PatternOf(k)
  {
    hide Got, Gave, Fed, ReadsIn, WritesIn, Responses;
    forall k: nat | k < 3
      ensures Sendable(fs[k])
      ensures Lengths(Responses(t)[k]) == [ID_LEN] + PatternOf(k) && Sendable(Responses(t)[k])
    {
      OneMessage(t, c, fs[k], k);
    }
  }

  /** Both directions, frame by frame: the records held the server's messages
      when the calls began, and the server gets what they held afterwards. */
  lemma MessagesCross(t: Trace, c: seq<Act>, fs: seq<seq<seq<byte>>>, s: seq<Act>, sm: seq<nat>)
    requires Succeeded(t, c) && |t.w| == 7 && Served(fs, s, sm, c, t.m, t.w[0])
    requires Consumes(c, t.m[0], t.m[6], t.w[0], t.w[6])
    ensures forall k: nat | k < 3 :: fs[k] == RecFrames(RecordOf(t, k), t.at)
    ensures forall k: nat | k < 3 :: Answer(s, sm, k) == RecFrames(RecordOf(t, k), t.after)
  {
    FedBetween(t.w[0].input, t.w[0].pos, t.w[6].pos, WritesIn(s, sm[0], sm[6]));
    ClientSide(t, c, fs);
    ServerSide(t, c, fs, s, sm);
    hide RxRun, TxRun, Fed, ReadsIn, WritesIn, Sendable, Got, Gave, Message, Shaped, RecFrames, DoneReceiving,
        DoneSending, Lengths, PatternOf;
    RolesReversed(fs, Responses(t), Rep(0, BUF_SIZE), c, t.m, s, sm);
    forall k: nat | k < 3
      ensures fs[k] == RecFrames(RecordOf(t, k), t.at)
    {
      OneMessage(t, c, fs[k], k);
    }
  }

  ghost predicate PortionInSlot(q: seq<byte>, ct: nat, frames: seq<seq<byte>>, i: nat) {
    && EnumSize(ct) && IsPage(q) && |frames| == 5 && i < 4
    && |frames[1 + i]| <= SLOT && SlotHolds(q, ct, i, frames[1 + i])
  }

  /** The id and the first n portions of a message are in page q. */
  ghost predicate Carries(q: seq<byte>, ct: nat, frames: seq<seq<byte>>, n: nat) {
    && EnumSize(ct) && IsPage(q) && |frames| == 5
    && frames[0] == LE32(InvokeAt(q, ct).func)
    && forall i: nat | i < n :: PortionInSlot(q, ct, frames, i)
  }

  /** A call that was shown a record's id and inputs carried the message in it. */
  lemma InputsCarried(q: seq<byte>, ct: nat, r: seq<byte>, rec: Record, sizes: seq<nat>, pattern: seq<byte>, b: Blocks,
                      session: uint32, table: seq<Param>)
    requires Prepared(q, ct, r, rec, b, sizes) && |pattern| == DATA_PORTIONS && Shaped(rec.ps, pattern)
    requires |table| == MAX_PARAMS && SawInvoke(q, ct, rec.func, session, table)
    requires forall i | 0 <= i < |sizes| :: sizes[i] == pattern[i] <= SLOT
    ensures Carries(q, ct, RecFrames(rec, b), |sizes|)
  {
    FullFrames(rec, pattern, b);
    hide SawInvoke, Staged, RecFrames;
    var f, inputs := RecFrames(rec, b), Inputs(rec.ps, b, sizes);
    forall i: nat | i < |sizes|
      ensures PortionInSlot(q, ct, f, i)
    {
      assert inputs[i] == f[1 + i];
      InputInSlot(q, ct, PayloadOf(r, ct), inputs, |sizes|, i);
    }
  }

  /** A record that got the results of a call makes the message with them. */
  lemma ResultsReturned(r: seq<byte>, ct: nat, rec: Record, pattern: seq<byte>, b: Blocks)
    requires EnumSize(ct) && IsPage(r) && |pattern| == DATA_PORTIONS && Shaped(rec.ps, pattern) && Owned(rec.ps, b)
    requires Copied(rec.ps, DATA_PORTIONS, b, r, ct)
    ensures RecFrames(rec, b) == [LE32(rec.func)] + Results(r, ct, pattern)
  {
    FullFrames(rec, pattern, b);
    hide RecFrames, LE32, Owned, Copied, Results;
    var f, d := RecFrames(rec, b), [LE32(rec.func)] + Results(r, ct, pattern);
    forall j | 0 <= j < 5
      ensures f[j] == d[j]
    {
      if j > 0 {
        PortionReturned(r, ct, rec, pattern, b, j - 1);
        assert f[1 + (j - 1)] == b[rec.ps[j - 1].data.addr];
      }
    }
  }

  lemma PortionReturned(r: seq<byte>, ct: nat, rec: Record, pattern: seq<byte>, b: Blocks, j: nat)
    requires EnumSize(ct) && IsPage(r) && |pattern| == DATA_PORTIONS && Shaped(rec.ps, pattern) && Owned(rec.ps, b)
    requires Copied(rec.ps, DATA_PORTIONS, b, r, ct) && j < 4
    ensures b[rec.ps[j].data.addr] == Results(r, ct, pattern)[j]
  {
  }

  /** The server's k-th answer is the id of its k-th message and what the other
      VM left in the four slots of page r. */
  ghost predicate Returned(s: seq<Act>, sm: seq<nat>, k: nat, f: seq<seq<byte>>, r: seq<byte>, ct: nat) {
    && k < 3 && Cuts(s, sm, 0, 6) && f != [] && IsPage(r) && EnumSize(ct)
    && Answer(s, sm, k) == [f[0]] + Results(r, ct, PatternOf(k))
  }

  lemma OneReturned(t: Trace, s: seq<Act>, sm: seq<nat>, k: nat, f: seq<seq<byte>>, r: seq<byte>, ct: nat)
    requires k < 3 && Cuts(s, sm, 0, 6) && ThreeOwned(t, t.at) && ThreeOwned(t, t.after) && EnumSize(ct) && IsPage(r)
    requires Shaped(RecordOf(t, k).ps, PatternOf(k)) && Copied(RecordOf(t, k).ps, DATA_PORTIONS, t.after, r, ct)
    requires f == RecFrames(RecordOf(t, k), t.at) && Answer(s, sm, k) == RecFrames(RecordOf(t, k), t.after)
    ensures Returned(s, sm, k, f, r, ct)
  {
    ResultsReturned(r, ct, RecordOf(t, k), PatternOf(k), t.after);
    FullFrames(RecordOf(t, k), PatternOf(k), t.at);
  }

  /** The three calls, as far as the records go. */
  lemma CallsCarry(t: Trace, ta: seq<seq<byte>> -> seq<byte>, ct: nat, shm: uint64, seen0: seq<seq<byte>>,
                   seen: seq<seq<byte>>)
    requires ThreeShaped(t) && EnumSize(ct) && Ready(t.one, t.two, t.three, t.at)
    requires Challenged(ta, ct, shm, seen0, seen, t.one, t.two, t.three, t.at, t.after)
    ensures Carries(seen[|seen0| + 1], ct, RecFrames(t.one, t.at), 0)
    ensures Carries(seen[|seen0| + 2], ct, RecFrames(t.two, t.at), 2)
    ensures Carries(seen[|seen0| + 3], ct, RecFrames(t.three, t.at), 3)
  {
    hide SawInvoke, Prepared, Copied, Carries, RecFrames, SawOpen, SawClose;
    var n := |seen0|;
    var r0, r1, r2 := ta(seen[..n + 1]), ta(seen[..n + 2]), ta(seen[..n + 3]);
    var session := SessionAt(r0, ct).session;
    InputsCarried(seen[n + 1], ct, r0, t.one, [], PATTERN_INIT_COMMIT, t.at, session, InitTable(shm));
    InputsCarried(seen[n + 2], ct, r1, t.two, [32, 32], PATTERN_INIT_COMMIT, t.at, session, CommitmentTable(shm));
    InputsCarried(seen[n + 3], ct, r2, t.three, [32, 32, 64], PATTERN_PROOFS, t.at, session, ProofsTable(shm));
  }

  /** The three records afterwards hold what the calls left. */
  lemma CallsCopied(t: Trace, k: nat, ta: seq<seq<byte>> -> seq<byte>, ct: nat, shm: uint64, seen0: seq<seq<byte>>,
                    seen: seq<seq<byte>>)
    requires k < 3 && EnumSize(ct) && Ready(t.one, t.two, t.three, t.at)
    requires Challenged(ta, ct, shm, seen0, seen, t.one, t.two, t.three, t.at, t.after)
    ensures var r := ta(seen[..|seen0| + k + 2]);
      && |RecordOf(t, k).ps| == DATA_PORTIONS && IsPage(r) && Copied(RecordOf(t, k).ps, DATA_PORTIONS, t.after, r, ct)
  {
    hide SawInvoke, Prepared, Copied, SawOpen, SawClose;
  }

  /** Calls and messages together, for a client that succeeded. */
  lemma CallsAnswer(t: Trace, c: seq<Act>, fs: seq<seq<seq<byte>>>, s: seq<Act>, sm: seq<nat>,
                    ta: seq<seq<byte>> -> seq<byte>, ct: nat, shm: uint64,
                    seen0: seq<seq<byte>>, seen: seq<seq<byte>>)
    requires Succeeded(t, c) && |t.w| == 7 && Served(fs, s, sm, c, t.m, t.w[0])
    requires Consumes(c, t.m[0], t.m[6], t.w[0], t.w[6])
    requires EnumSize(ct) && Ready(t.one, t.two, t.three, t.at)
    requires Challenged(ta, ct, shm, seen0, seen, t.one, t.two, t.three, t.at, t.after)
    ensures |fs| == 3 && |seen| == |seen0| + 5
    ensures Carries(seen[|seen0| + 1], ct, fs[0], 0)
    ensures Carries(seen[|seen0| + 2], ct, fs[1], 2)
    ensures Carries(seen[|seen0| + 3], ct, fs[2], 3)
    ensures forall k: nat | k < 3 :: Returned(s, sm, k, fs[k], ta(seen[..|seen0| + k + 2]), ct)
  {
    MessagesCross(t, c, fs, s, sm);
    hide SawInvoke, Staged, Copied, Carries, RecFrames, SawOpen, SawClose, Inputs, Answer, Got, Gave, Fed, TxRun,
      RxRun, Message, ReadsIn, WritesIn, Returned, Sendable;
    AllShaped(t, c);
    CallsCarry(t, ta, ct, shm, seen0, seen);
    assert fs[0] == RecFrames(t.one, t.at) && fs[1] == RecFrames(t.two, t.at) && fs[2] == RecFrames(t.three, t.at);
    forall k: nat | k < 3
      ensures Returned(s, sm, k, fs[k], ta(seen[..|seen0| + k + 2]), ct)
    {
      CallsCopied(t, k, ta, ct, shm, seen0, seen);
      OneReturned(t, s, sm, k, fs[k], ta(seen[..|seen0| + k + 2]), ct);
    }
  }

  lemma AllShaped(t: Trace, c: seq<Act>)
    requires Succeeded(t, c)
    ensures ThreeShaped(t)
  {
    assert Shaped(RecordOf(t, 0).ps, PatternOf(0)) && Shaped(RecordOf(t, 1).ps, PatternOf(1))
        && Shaped(RecordOf(t, 2).ps, PatternOf(2));
  }

  /** The session end to end. When the client received and sent everything and the
      server ran its side, each of the three calls carried the id and the input
      portions of its own message, and for each the server gets back the id and
      what the other VM left in the four slots after that very call. */
  lemma ChallengesAnswered(t: Trace, c: seq<Act>, g: Guest, seen0: seq<seq<byte>>, seen: seq<seq<byte>>,
                           fs: seq<seq<seq<byte>>>, s: seq<Act>, sm: seq<nat>)
    requires EnumSize(g.ct) && Told(Completed, t, c, g, true, seen0, seen) && AllReceived(t)
    requires t.w != [] && Served(fs, s, sm, c, t.m, t.w[0])
    ensures |fs| == 3 && |seen| == |seen0| + 5
    ensures Carries(seen[|seen0| + 1], g.ct, fs[0], 0)
    ensures Carries(seen[|seen0| + 2], g.ct, fs[1], 2)
    ensures Carries(seen[|seen0| + 3], g.ct, fs[2], 3)
    ensures forall k: nat | k < 3 :: Returned(s, sm, k, fs[k], g.ta(seen[..|seen0| + k + 2]), g.ct)
  {
    assert |t.w| == 7;
    hide ThreeTaken, ThreeGiven, Challenged, Ready, Served, Succeeded, Carries, Returned, AllReceived,
        AllAllocated, Consumes;
    WentWell(t, c);
    CallsAnswer(t, c, fs, s, sm, g.ta, g.ct, g.shm, seen0, seen);
  }

  /** The lengths in the entries of a page. */
  predicate LengthsOf(q: seq<byte>, ct: nat, ps: seq<Portion>) {
    && IsPage(q) && EnumSize(ct) && |ps| == 4
    && forall i | 0 <= i < 4 :: Long(q, ct + 96 + 32 * i) == ps[i].len
  }

  lemma EntryLength(q: seq<byte>, ct: nat, i: nat, attr: uint64, a: int, b: int, c: uint64)
    requires Entry(q, ct, i, attr, a, b, c)
    ensures Long(q, ct + 96 + 32 * i) == b
  {
  }

  lemma LengthsMatch(q: seq<byte>, ct: nat, func: uint32, session: uint32, shm: uint64, ps: seq<Portion>)
    requires IsPage(q) && EnumSize(ct) && |ps| == 4
    ensures InitCall(q, ct, func, session, shm) && (forall i | 0 <= i < 4 :: ps[i].len == 32) ==> LengthsOf(q, ct, ps)
    ensures CommitmentCall(q, ct, func, session, shm) && (forall i | 0 <= i < 4 :: ps[i].len == 32) ==>
              LengthsOf(q, ct, ps)
    ensures (forall i | 0 <= i < 4 :: ps[i].len == if i < 2 then 32 else 64) ==>
              ProofsCall(q, ct, func, session, shm) ==> LengthsOf(q, ct, ps)
  {
    hide InvokedWith, Entry, Long;
    forall i: nat | i < 4
      ensures Entry(q, ct, i, 6, 971 * i, 32, shm) ==> Long(q, ct + 96 + 32 * i) == 32
      ensures Entry(q, ct, i, if i < 2 then 5 else 6, 971 * i, 32, shm) ==> Long(q, ct + 96 + 32 * i) == 32
      ensures Entry(q, ct, i, if i < 3 then 7 else 6, 971 * i, if i < 2 then 32 else 64, shm) ==>
                Long(q, ct + 96 + 32 * i) == if i < 2 then 32 else 64
    {
      if Entry(q, ct, i, 6, 971 * i, 32, shm) {
        EntryLength(q, ct, i, 6, 971 * i, 32, shm);
      }
      if Entry(q, ct, i, if i < 2 then 5 else 6, 971 * i, 32, shm) {
        EntryLength(q, ct, i, if i < 2 then 5 else 6, 971 * i, 32, shm);
      }
      if Entry(q, ct, i, if i < 3 then 7 else 6, 971 * i, if i < 2 then 32 else 64, shm) {
        EntryLength(q, ct, i, if i < 3 then 7 else 6, 971 * i, if i < 2 then 32 else 64, shm);
      }
    }
  }

  lemma PagesAre(q: seq<byte>, ct: nat, func: uint32, session: uint32, shm: uint64)
    ensures InitCall(q, ct, func, session, shm) ==> IsPage(q)
    ensures CommitmentCall(q, ct, func, session, shm) ==> IsPage(q)
    ensures ProofsCall(q, ct, func, session, shm) ==> IsPage(q)
  {
  }

  /** The pages that a session shows when the calls are made, and the lengths of
      the buffers in them. */
  lemma SessionOnPages(out: Outcome, t: Trace, c: seq<Act>, g: Guest, seen0: seq<seq<byte>>, seen: seq<seq<byte>>)
    requires EnumSize(g.ct) && Told(out, t, c, g, true, seen0, seen) && out != Undefined
    ensures FivePages(g.ta, g.ct, g.shm, |seen0|, seen, t.one.func, t.two.func, t.three.func)
    ensures forall k: nat | k < 3 :: LengthsOf(seen[|seen0| + 1 + k], g.ct, RecordOf(t, k).ps)
  {
    hide ThreeTaken, ThreeGiven, Challenged, Ready, LengthsOf, InitCall, CommitmentCall, ProofsCall, Opened, Closed,
      SessionIn, AllAllocated;
    assert AllAllocated(t);
    ChallengeOnPages(g.ta, g.ct, g.shm, seen0, seen, t.one, t.two, t.three, t.at, t.after);
    IdsAndShapes(t, c);
    var n := |seen0|;
    var session := SessionIn(g.ta(seen[..n + 1]), g.ct);
    assert IsPage(seen[n + 1]) && IsPage(seen[n + 2]) && IsPage(seen[n + 3]) by {
      PagesAre(seen[n + 1], g.ct, t.one.func, session, g.shm);
      PagesAre(seen[n + 2], g.ct, t.two.func, session, g.shm);
      PagesAre(seen[n + 3], g.ct, t.three.func, session, g.shm);
    }
    LengthsMatch(seen[n + 1], g.ct, t.one.func, session, g.shm, t.one.ps);
    LengthsMatch(seen[n + 2], g.ct, t.two.func, session, g.shm, t.two.ps);
    LengthsMatch(seen[n + 3], g.ct, t.three.func, session, g.shm, t.three.ps);
  }
}
