/** What the two ends of an exchange make of any input and any write schedule:
    where they stop, how much input they have read by then, and what is left of
    the schedule. */
module Outcomes {
  import opened Bytes
  import opened Channel
  import opened Framing
  import opened Reception
  import opened Transmission
  import opened Protocol
  import opened Streams

  /** An end that has stopped, the place in its input, and the schedule left. */
  datatype After<T> = After(st: T, pos: nat, evs: seq<WriteEvent>)

  /** How much of a frame with a payload of len bytes goes out, and the schedule
      after that: the first write that is not taken whole is the last. */
  function FrameWrites(evs: seq<WriteEvent>, len: nat): (r: (nat, seq<WriteEvent>)) {
    var (a, e1) := WriteReturns(evs, 4);
    if a != 4 then (if a > 0 then a else 0, e1)
    else
      var (b, e2) := WriteReturns(e1, len);
      if b != len then (4 + if b > 0 then b else 0, e2)
      else
        var (c, e3) := WriteReturns(e2, 4);
        (4 + len + if c > 0 then c else 0, e3)
  }

  /** A place in the input of a connection, and the write schedule from there on. */
  datatype Spot = Spot(input: seq<Tok>, pos: nat, evs: seq<WriteEvent>)

  ghost function Here(ch: Channel): Spot
    reads ch
  {
    Spot(ch.all, ch.pos, ch.outgoing)
  }

  /** The reads among log[lo..hi] are the input between the two places. */
  ghost predicate Consumes(log: seq<Act>, lo: nat, hi: nat, e0: Spot, e1: Spot) {
    && lo <= hi <= |log| && e0.pos <= e1.pos && e1.input == e0.input
    && ReadsIn(log, lo, hi) == Between(e0.input, e0.pos, e1.pos)
  }

  /** Each of the three writes of a frame is taken whole. */
  predicate TakesOne(evs: seq<WriteEvent>, len: nat) {
    && (|evs| >= 1 ==> Whole(evs[0], 4)) && (|evs| >= 2 ==> Whole(evs[1], len)) && (|evs| >= 3 ==> Whole(evs[2], 4))
  }

  /** The frame goes out if and only if each of its three writes is taken whole;
      a retry that is asked for is as fatal as a close. */
  lemma FrameGoesOut(evs: seq<WriteEvent>, len: nat)
    requires len > 0
    ensures var (sent, rest) := FrameWrites(evs, len);
      && sent <= len + 8 && SuffixOf(rest, evs) && (sent == len + 8 ==> rest == evs[Min(|evs|, 3)..])
      && (sent == len + 8 <==> TakesOne(evs, len))
  {
    hide SuffixOf, WriteReturns, Whole;
    var (a, e1) := WriteReturns(evs, 4);
    OneWrite(evs, 4);
    if a == 4 {
      var (b, e2) := WriteReturns(e1, len);
      OneWrite(e1, len);
      SuffixTrans(e2, e1, evs);
      if b == len {
        OneWrite(e2, 4);
        SuffixTrans(WriteReturns(e2, 4).1, e2, evs);
      }
    }
  }

  lemma OneWrite(evs: seq<WriteEvent>, n: nat)
    requires n > 0
    ensures var (r, rest) := WriteReturns(evs, n);
      && r <= n && SuffixOf(rest, evs) && rest == (if evs == [] then evs else evs[1..])
      && (r == n <==> (evs != [] ==> Whole(evs[0], n)))
  {
  }

  /** The sender from frame i on: it writes a frame and looks for the
      acknowledgement, until a frame is not taken whole or something else comes. */
  ghost function SenderAfter(frames: seq<seq<byte>>, i: nat, ts: seq<Tok>, n: nat, evs: seq<WriteEvent>): After<Tx>
    requires i <= |frames|
    decreases |frames| - i
  {
    if i == |frames| then After(Tx(TxDone, i), n, evs)
    else
      var (k, rest) := FrameWrites(evs, |frames[i]|);
      var d := Found(ts, n, 3);
      if k < |frames[i]| + 8 then After(Tx(Sending(k), i), n, rest)
      else if d != ACK then After(Tx(TxFail, i), n + Cost(3, d), rest)
      else SenderAfter(frames, i + 1, ts, n + 3, rest)
  }

  lemma SenderStep(frames: seq<seq<byte>>, i: nat, ts: seq<Tok>, n: nat, evs: seq<WriteEvent>)
    requires i < |frames|
    ensures var (k, rest) := FrameWrites(evs, |frames[i]|); var d := Found(ts, n, 3);
      SenderAfter(frames, i, ts, n, evs)
      == if k < |frames[i]| + 8 then After(Tx(Sending(k), i), n, rest)
         else if d != ACK then After(Tx(TxFail, i), n + Cost(3, d), rest)
         else SenderAfter(frames, i + 1, ts, n + Cost(3, d), rest)
    ensures FrameWrites(evs, |frames[i]|).0 <= |frames[i]| + 8
  {
  }

  predicate Fit(lens: seq<nat>, buf: seq<byte>) {
    forall i | 0 <= i < |lens| :: lens[i] <= |buf|
  }

  /** The receiver that has stored acc: it runs the frame automaton and writes an
      acknowledgement, until a frame is rejected or a write fails. */
  function ReceiverAfter(lens: seq<nat>, buf: seq<byte>, acc: seq<seq<byte>>, ts: seq<Tok>, n: nat,
                         evs: seq<WriteEvent>): After<Rx>
    requires Fit(lens, buf)
    decreases |lens| - |acc|
  {
    if |acc| >= |lens| then After(Rx(RxDone, buf, acc), n, evs)
    else
      var len := lens[|acc|];
      var r := Drive(Init(buf), len, ts, n);
      var (sent, rest) := AckWrites(evs, 0);
      if !r.st.ph.Accepted? then After(Rx(RxFail, r.st.buf, acc), r.n, evs)
      else if sent < 3 then After(Rx(Acking(sent), r.st.buf, acc), r.n, rest)
      else ReceiverAfter(lens, r.st.buf, acc + [r.st.buf[..len]], ts, r.n, rest)
  }

  lemma ReceiverStep(lens: seq<nat>, buf: seq<byte>, acc: seq<seq<byte>>, ts: seq<Tok>, n: nat, evs: seq<WriteEvent>)
    requires Fit(lens, buf) && |acc| < |lens|
    ensures var r := Drive(Init(buf), lens[|acc|], ts, n); var (sent, rest) := AckWrites(evs, 0);
      && Fit(lens, r.st.buf)
      && ReceiverAfter(lens, buf, acc, ts, n, evs)
         == if !r.st.ph.Accepted? then After(Rx(RxFail, r.st.buf, acc), r.n, evs)
            else if sent < 3 then After(Rx(Acking(sent), r.st.buf, acc), r.n, rest)
            else ReceiverAfter(lens, r.st.buf, acc + [r.st.buf[..lens[|acc|]]], ts, r.n, rest)
  {
    hide Drive, AckWrites;
  }

  // ---------------------------------------------------------------- when a sender succeeds

  /** The retry that TLS asks for at a write of a frame is never made: nothing of
      the frame goes out, and the call has failed. */
  lemma RetryEndsExchange(frames: seq<seq<byte>>, ts: seq<Tok>, n: nat, evs: seq<WriteEvent>)
    requires |frames| > 0 && evs != [] && evs[0].WantWrite?
    ensures SenderAfter(frames, 0, ts, n, evs) == After(Tx(Sending(0), 0), n, evs[1..])
    ensures SenderAfter(frames, 0, ts, n, [WantWrite]).st == Tx(Sending(0), 0)
  {
  }

  /** Each write of the frames from i on is taken whole by its own event. */
  predicate TakesFrames(frames: seq<seq<byte>>, i: nat, evs: seq<WriteEvent>)
    requires i <= |frames|
    decreases |frames| - i
  {
    i == |frames| || (TakesOne(evs, |frames[i]|) && TakesFrames(frames, i + 1, evs[Min(|evs|, 3)..]))
  }

  /** The length of write number j from frame i on. */
  function WriteSize(frames: seq<seq<byte>>, i: nat, j: nat): nat
    requires i + j / 3 < |frames|
  {
    if j % 3 == 1 then |frames[i + j / 3]| else 4
  }

  /** That is, write by write. */
  lemma {:induction false} TakesEach(frames: seq<seq<byte>>, i: nat, r: nat, evs: seq<WriteEvent>)
    requires i + r == |frames|
    ensures TakesFrames(frames, i, evs) <==> EachWhole(frames, i, r, evs)
    decreases r
  {
    if r > 0 {
      var j, q, rest := i + 1, r - 1, evs[Min(|evs|, 3)..];
      assert TakesFrames(frames, i, evs) <==> TakesOne(evs, |frames[i]|) && TakesFrames(frames, j, rest);
      hide *;
      TakesEach(frames, j, q, rest);
      WholeNext(frames, i, j, r, q, evs, rest);
    }
  }

  predicate EachWhole(frames: seq<seq<byte>>, i: nat, r: nat, evs: seq<WriteEvent>)
    requires i + r == |frames|
  {
    forall j: nat | j < |evs| && j < 3 * r :: Whole(evs[j], WriteSize(frames, i, j))
  }

  lemma WholeNext(frames: seq<seq<byte>>, i: nat, i': nat, r: nat, q: nat, evs: seq<WriteEvent>, rest: seq<WriteEvent>)
    requires i + r == |frames| && r == q + 1 && i' == i + 1 && rest == evs[Min(|evs|, 3)..]
    ensures EachWhole(frames, i, r, evs) <==> TakesOne(evs, |frames[i]|) && EachWhole(frames, i', q, rest)
  {
    if EachWhole(frames, i, r, evs) {
      assert |evs| >= 1 ==> Whole(evs[0], WriteSize(frames, i, 0));
      assert |evs| >= 2 ==> Whole(evs[1], WriteSize(frames, i, 1));
      assert |evs| >= 3 ==> Whole(evs[2], WriteSize(frames, i, 2));
      forall j: nat | j < |rest| && j < 3 * q
        ensures Whole(rest[j], WriteSize(frames, i', j))
      {
        assert Whole(evs[j + 3], WriteSize(frames, i, j + 3));
      }
    }
    if TakesOne(evs, |frames[i]|) && EachWhole(frames, i', q, rest) {
      forall j: nat | j < |evs| && j < 3 * r
        ensures Whole(evs[j], WriteSize(frames, i, j))
      {
        if j >= 3 {
          assert Whole(rest[j - 3], WriteSize(frames, i', j - 3));
        }
      }
    }
  }

  lemma HoldsBoth(ts: seq<Tok>, n: nat, a: seq<byte>, b: seq<byte>)
    ensures HoldsAt(ts, n, a + b) <==> HoldsAt(ts, n, a) && HoldsAt(ts, n + |a|, b)
  {
    var s := a + b;
    if HoldsAt(ts, n, s) {
      forall i: nat | n + |a| <= i < n + |a| + |b|
        ensures At(ts, i) == Byte(b[i - (n + |a|)])
      {
        assert s[i - n] == b[i - (n + |a|)];
      }
    }
    if HoldsAt(ts, n, a) && HoldsAt(ts, n + |a|, b) {
      forall i: nat | n <= i < n + |s|
        ensures At(ts, i) == Byte(s[i - n])
      {
        assert i >= n + |a| ==> s[i - n] == b[i - (n + |a|)];
      }
    }
  }

  lemma FoundAck(ts: seq<Tok>, n: nat)
    ensures Found(ts, n, 3) == ACK <==> HoldsAt(ts, n, ACK)
  {
    if HoldsAt(ts, n, ACK) {
      FindsUnique(ts, n, 3, Found(ts, n, 3), ACK);
    }
  }

  /** What one frame and its acknowledgement contribute to a success. */
  lemma SendsOne(frames: seq<seq<byte>>, i: nat, ts: seq<Tok>, n: nat, evs: seq<WriteEvent>)
    requires i < |frames| && |frames[i]| > 0
    ensures var rest := evs[Min(|evs|, 3)..]; var a := SenderAfter(frames, i, ts, n, evs);
      if TakesOne(evs, |frames[i]|) && HoldsAt(ts, n, ACK) then a == SenderAfter(frames, i + 1, ts, n + 3, rest)
      else !a.st.pc.TxDone?
  {
    SenderStep(frames, i, ts, n, evs);
    FrameGoesOut(evs, |frames[i]|);
    FoundAck(ts, n);
  }

  /** The input goes on with r acknowledgements. */
  ghost predicate AcksAt(ts: seq<Tok>, n: nat, r: nat)
    decreases r
  {
    r == 0 || (HoldsAt(ts, n, ACK) && AcksAt(ts, n + 3, r - 1))
  }

  lemma {:induction false} AcksHeld(ts: seq<Tok>, n: nat, r: nat)
    ensures AcksAt(ts, n, r) <==> HoldsAt(ts, n, Acks(r))
    decreases r
  {
    if r > 0 {
      AcksHeld(ts, n + 3, r - 1);
      HoldsBoth(ts, n, ACK, Acks(r - 1));
    }
  }

  lemma NoneToSend(frames: seq<seq<byte>>, ts: seq<Tok>, n: nat, evs: seq<WriteEvent>)
    ensures SenderAfter(frames, |frames|, ts, n, evs).st.pc.TxDone? && AcksAt(ts, n, 0)
    ensures TakesFrames(frames, |frames|, evs)
  {
  }

  /** Frame i, followed by frame j = i + 1 at place m with the schedule rest. */
  lemma SendsFrame(frames: seq<seq<byte>>, i: nat, j: nat, r: nat, q: nat, ts: seq<Tok>, n: nat, m: nat,
                  evs: seq<WriteEvent>, rest: seq<WriteEvent>)
    requires i < |frames| && |frames[i]| > 0 && j == i + 1 && r == q + 1 && m == n + 3 && rest == evs[Min(|evs|, 3)..]
    requires SenderAfter(frames, j, ts, m, rest).st.pc.TxDone? <==> AcksAt(ts, m, q) && TakesFrames(frames, j, rest)
    ensures SenderAfter(frames, i, ts, n, evs).st.pc.TxDone? <==> AcksAt(ts, n, r) && TakesFrames(frames, i, evs)
  {
    hide SenderAfter, TakesOne, HoldsAt;
    SendsOne(frames, i, ts, n, evs);
  }

  /** A sender succeeds if and only if every write is taken whole and the input
      goes on with one acknowledgement for each of the r frames to come. */
  lemma {:induction false} SendsExactly(frames: seq<seq<byte>>, i: nat, r: nat, ts: seq<Tok>, n: nat,
                                        evs: seq<WriteEvent>)
    requires i + r == |frames| && forall j | 0 <= j < |frames| :: |frames[j]| > 0
    ensures SenderAfter(frames, i, ts, n, evs).st.pc.TxDone? <==> AcksAt(ts, n, r) && TakesFrames(frames, i, evs)
    decreases r
  {
    if r == 0 {
      NoneToSend(frames, ts, n, evs);
    } else {
      var j, q, m, rest := i + 1, r - 1, n + 3, evs[Min(|evs|, 3)..];
      hide *;
      SendsExactly(frames, j, q, ts, m, rest);
      SendsFrame(frames, i, j, r, q, ts, n, m, evs, rest);
    }
  }

  lemma SentNext(a: After<Tx>, n: nat, m: nat, r: nat, q: nat, evs: seq<WriteEvent>, rest: seq<WriteEvent>)
    requires m == n + 3 && r == q + 1 && rest == evs[Min(|evs|, 3)..]
    requires a.pos == m + 3 * q && SuffixOf(a.evs, rest) && |a.evs| == |rest| - Min(|rest|, 3 * q)
    ensures a.pos == n + 3 * r && SuffixOf(a.evs, evs) && |a.evs| == |evs| - Min(|evs|, 3 * r)
  {
    Dropped(evs, 3);
    hide SuffixOf;
    SuffixTrans(a.evs, rest, evs);
  }

  /** Then it has read those acknowledgements and used three events a frame. */
  lemma {:induction false} SentWhole(frames: seq<seq<byte>>, i: nat, r: nat, ts: seq<Tok>, n: nat, evs: seq<WriteEvent>)
    requires i + r == |frames| && forall j | 0 <= j < |frames| :: |frames[j]| > 0
    requires SenderAfter(frames, i, ts, n, evs).st.pc.TxDone?
    ensures var a := SenderAfter(frames, i, ts, n, evs);
      a.pos == n + 3 * r && SuffixOf(a.evs, evs) && |a.evs| == |evs| - Min(|evs|, 3 * r)
    decreases r
  {
    if r > 0 {
      var j, q, m, rest := i + 1, r - 1, n + 3, evs[Min(|evs|, 3)..];
      SendsOne(frames, i, ts, n, evs);
      hide *;
      SentWhole(frames, j, q, ts, m, rest);
      SentNext(SenderAfter(frames, i, ts, n, evs), n, m, r, q, evs, rest);
    }
  }

  lemma Dropped(evs: seq<WriteEvent>, m: nat)
    ensures SuffixOf(evs[Min(|evs|, m)..], evs)
  {
  }

  // ---------------------------------------------------------------- what a receiver makes of frames

  lemma DriveOn(st: Rec, len: nat, ts: seq<Tok>, n: nat)
    requires st.Ok(len) && !st.ph.Final()
    ensures Drive(st, len, ts, n) == Drive(Step(st, len, At(ts, n)), len, ts, n + 1)
  {
  }

  lemma DriveEnds(st: Rec, len: nat, ts: seq<Tok>, n: nat)
    requires st.Ok(len) && st.ph.Final()
    ensures Drive(st, len, ts, n) == Ran(st, n)
  {
  }

  lemma HeldAt(ts: seq<Tok>, n: nat, s: seq<byte>, c: nat)
    requires HoldsAt(ts, n, s) && c < |s|
    ensures At(ts, n + c) == Byte(s[c])
  {
    assert n + c - n == c;
  }

  /** A whole frame is accepted, from any place in it. */
  lemma {:induction false} FrameArrives(p: seq<byte>, buf: seq<byte>, ts: seq<Tok>, n: nat, c: nat)
    requires 1 <= |p| <= |buf| && c < |p| + 8 && Stored(p, c) <= buf && HoldsAt(ts, n, Wire(p))
    ensures var r := Drive(Rec(PhaseAt(p, c), buf), |p|, ts, n + c);
      r.st.ph.Accepted? && p <= r.st.buf && r.n == n + |p| + 8
    decreases |p| + 8 - c
  {
    hide PhaseAt, Stored, Wire, Step, Drive, HoldsAt;
    var st := Step(Rec(PhaseAt(p, c), buf), |p|, Byte(Wire(p)[c]));
    var c', m := c + 1, n + c + 1;
    assert m == n + c';
    HeldAt(ts, n, Wire(p), c);
    PhaseStep(p, c, buf);
    DriveOn(Rec(PhaseAt(p, c), buf), |p|, ts, n + c);
    if c' < |p| + 8 {
      FrameArrives(p, st.buf, ts, n, c');
    } else {
      DriveEnds(st, |p|, ts, m);
    }
  }

  /** From place n on there is only the report of the end. */
  ghost predicate CutAt(ts: seq<Tok>, n: nat) {
    forall i: nat | n <= i :: At(ts, i) == Break
  }

  /** From place n on the input is the first bytes of w, and then only the end. */
  ghost predicate FedFrom(ts: seq<Tok>, n: nat, w: seq<byte>) {
    exists k: nat :: k <= |w| && HoldsAt(ts, n, w[..k]) && CutAt(ts, n + k)
  }

  /** What is read of such an input. */
  lemma {:induction false} FedReads(ts: seq<Tok>, n: nat, m: nat, w: seq<byte>, k: nat)
    requires n <= m && k <= |w| && HoldsAt(ts, n, w[..k]) && CutAt(ts, n + k)
    ensures Fed(Between(ts, n, m), w)
    decreases m - n
  {
    var us := Between(ts, n, m);
    if k == 0 {
      assert forall i: nat | i < |us| :: us[i] == At(ts, n + i) == Break;
    } else if n < m {
      HeldAt(ts, n, w[..k], 0);
      assert us[1..] == Between(ts, n + 1, m);
      forall i: nat | n + 1 <= i < n + 1 + (k - 1)
        ensures At(ts, i) == Byte(w[1..][..k - 1][i - (n + 1)])
      {
        HeldAt(ts, n, w[..k], i - n);
      }
      FedReads(ts, n + 1, m, w[1..], k - 1);
    }
  }

  lemma FedBetween(ts: seq<Tok>, n: nat, m: nat, w: seq<byte>)
    requires n <= m && FedFrom(ts, n, w)
    ensures Fed(Between(ts, n, m), w)
  {
    var k: nat :| k <= |w| && HoldsAt(ts, n, w[..k]) && CutAt(ts, n + k);
    FedReads(ts, n, m, w, k);
  }

  /** A frame that is cut off is rejected, when the end has been seen. */
  lemma {:induction false} FrameCut(p: seq<byte>, buf: seq<byte>, ts: seq<Tok>, n: nat, c: nat, k: nat)
    requires 1 <= |p| <= |buf| && c <= k < |p| + 8 && Stored(p, c) <= buf
    requires HoldsAt(ts, n, Wire(p)[..k]) && CutAt(ts, n + k)
    ensures var r := Drive(Rec(PhaseAt(p, c), buf), |p|, ts, n + c); r.st.ph.Rejected? && r.n > n + k
    decreases k - c
  {
    if c == k {
      assert CutAt(ts, n + c);
      hide *;
      EndSeen(p, buf, ts, n + c, c);
    } else {
      var c' := c + 1;
      hide *;
      var buf' := OneFurther(p, buf, ts, n, c, c', k);
      FrameCut(p, buf', ts, n, c', k);
    }
  }

  lemma OneFurther(p: seq<byte>, buf: seq<byte>, ts: seq<Tok>, n: nat, c: nat, c': nat, k: nat)
    returns (buf': seq<byte>)
    requires 1 <= |p| <= |buf| && c < k < |p| + 8 && c' == c + 1 && Stored(p, c) <= buf && HoldsAt(ts, n, Wire(p)[..k])
    ensures |buf'| == |buf| && Stored(p, c') <= buf'
    ensures Drive(Rec(PhaseAt(p, c), buf), |p|, ts, n + c) == Drive(Rec(PhaseAt(p, c'), buf'), |p|, ts, n + c')
  {
    var st := Step(Rec(PhaseAt(p, c), buf), |p|, Byte(Wire(p)[c]));
    HeldAt(ts, n, Wire(p)[..k], c);
    assert n + c + 1 == n + c';
    hide PhaseAt, Stored, Wire, Step, Drive, HoldsAt;
    PhaseStep(p, c, buf);
    DriveOn(Rec(PhaseAt(p, c), buf), |p|, ts, n + c);
    buf' := st.buf;
  }

  lemma EndSeen(p: seq<byte>, buf: seq<byte>, ts: seq<Tok>, n: nat, c: nat)
    requires 1 <= |p| <= |buf| && c < |p| + 8 && CutAt(ts, n)
    ensures var r := Drive(Rec(PhaseAt(p, c), buf), |p|, ts, n); r.st.ph.Rejected? && r.n > n
  {
    assert At(ts, n) == Break && At(ts, n + 1) == Break;
    var st := Step(Rec(PhaseAt(p, c), buf), |p|, Break);
    assert Drive(Rec(PhaseAt(p, c), buf), |p|, ts, n) == Drive(st, |p|, ts, n + 1);
    assert START[3] != STOP[3];
    if c < 4 {
      assert st.ph == Rejected;
    } else if c < 4 + |p| {
      assert st == Rec(Stop(0, START), buf);
      assert Drive(st, |p|, ts, n + 1) == Drive(Rec(Verdict(START), buf), |p|, ts, n + 2);
    } else {
      assert HalfStop(c - 4 - |p|)[3] == 0x55;
      assert st.ph == Rejected;
    }
  }

  lemma WireFirst(frames: seq<seq<byte>>, i: nat, ts: seq<Tok>, n: nat)
    requires i < |frames|
    ensures HoldsAt(ts, n, WireFrom(frames, i))
       <==> HoldsAt(ts, n, Wire(frames[i])) && HoldsAt(ts, n + |frames[i]| + 8, WireFrom(frames, i + 1))
    ensures |WireFrom(frames, i)| == |frames[i]| + 8 + |WireFrom(frames, i + 1)|
  {
    assert WireFrom(frames, i) == Wire(frames[i]) + WireFrom(frames, i + 1);
    hide Wire, HoldsAt, WireFrom;
    HoldsBoth(ts, n, Wire(frames[i]), WireFrom(frames, i + 1));
  }

  /** No write among those met fails. */
  predicate NoFailure(evs: seq<WriteEvent>, rest: seq<WriteEvent>) {
    forall j | 0 <= j < |evs| - |rest| :: !Fails(evs[j])
  }

  lemma NoFailureSplit(e0: seq<WriteEvent>, e1: seq<WriteEvent>, e2: seq<WriteEvent>)
    requires SuffixOf(e1, e0) && SuffixOf(e2, e1)
    ensures NoFailure(e0, e2) <==> NoFailure(e0, e1) && NoFailure(e1, e2)
  {
    var d := |e0| - |e1|;
    assert forall j | 0 <= j < |e1| :: e1[j] == e0[d + j];
    if NoFailure(e0, e1) && NoFailure(e1, e2) {
      forall j | 0 <= j < |e0| - |e2|
        ensures !Fails(e0[j])
      {
        assert j >= d ==> e0[j] == e1[j - d];
      }
    }
  }

  /** The last event met is the first that fails. */
  predicate StoppedBy(evs: seq<WriteEvent>, rest: seq<WriteEvent>) {
    && |rest| < |evs| && Fails(evs[|evs| - |rest| - 1])
    && forall j | 0 <= j < |evs| - |rest| - 1 :: !Fails(evs[j])
  }

  lemma StoppedLater(e0: seq<WriteEvent>, e1: seq<WriteEvent>, e2: seq<WriteEvent>)
    requires SuffixOf(e1, e0) && NoFailure(e0, e1) && StoppedBy(e1, e2)
    ensures StoppedBy(e0, e2)
  {
    var d := |e0| - |e1|;
    forall j | 0 <= j < |e0| - |e2|
      ensures j >= d ==> e0[j] == e1[j - d]
    {
    }
  }

  lemma {:induction false} AckStopsAt(evs: seq<WriteEvent>, total: nat)
    requires total < 3
    ensures var (sent, rest) := AckWrites(evs, total);
      SuffixOf(rest, evs) && if sent < 3 then StoppedBy(evs, rest) else NoFailure(evs, rest)
    decreases |evs|
  {
    AckGoesOut(evs, total);
    if evs != [] && !Fails(evs[0]) {
      var more := evs[1..];
      var total' := if Again(evs[0]) then total else total + Min(evs[0].most, 3 - total);
      if total' < 3 {
        AckStopsAt(more, total');
        if AckWrites(evs, total).0 < 3 {
          assert NoFailure(evs, more);
          StoppedLater(evs, more, AckWrites(evs, total).1);
        }
      }
    }
  }

  /** Whatever its input, a receiver meets a failing write only as its last one. */
  lemma {:induction false} ReceiverWrites(lens: seq<nat>, buf: seq<byte>, acc: seq<seq<byte>>, ts: seq<Tok>, n: nat,
                                          evs: seq<WriteEvent>)
    requires Fit(lens, buf)
    ensures var a := ReceiverAfter(lens, buf, acc, ts, n, evs);
      SuffixOf(a.evs, evs) && if a.st.pc.Acking? then StoppedBy(evs, a.evs) else NoFailure(evs, a.evs)
    decreases |lens| - |acc|
  {
    if |acc| < |lens| {
      var len := lens[|acc|];
      var r := Drive(Init(buf), len, ts, n);
      var (sent, rest) := AckWrites(evs, 0);
      ReceiverStep(lens, buf, acc, ts, n, evs);
      AckStopsAt(evs, 0);
      if r.st.ph.Accepted? && sent == 3 {
        hide ReceiverAfter, Drive, AckWrites, NoFailure, StoppedBy, SuffixOf, Fails;
        var acc' := acc + [r.st.buf[..len]];
        ReceiverWrites(lens, r.st.buf, acc', ts, r.n, rest);
        var e := ReceiverAfter(lens, r.st.buf, acc', ts, r.n, rest);
        SuffixTrans(e.evs, rest, evs);
        if e.st.pc.Acking? {
          StoppedLater(evs, rest, e.evs);
        } else {
          NoFailureSplit(evs, rest, e.evs);
        }
      }
    }
  }

  /** What is stored stays stored. */
  lemma {:induction false} ReceiverKeeps(lens: seq<nat>, buf: seq<byte>, acc: seq<seq<byte>>, ts: seq<Tok>, n: nat,
                                         evs: seq<WriteEvent>)
    requires Fit(lens, buf)
    ensures acc <= ReceiverAfter(lens, buf, acc, ts, n, evs).st.acc
    decreases |lens| - |acc|
  {
    if |acc| < |lens| {
      var len := lens[|acc|];
      var r := Drive(Init(buf), len, ts, n);
      var (sent, rest) := AckWrites(evs, 0);
      ReceiverStep(lens, buf, acc, ts, n, evs);
      if r.st.ph.Accepted? && sent == 3 {
        hide ReceiverAfter, Drive, AckWrites;
        ReceiverKeeps(lens, r.st.buf, acc + [r.st.buf[..len]], ts, r.n, rest);
      }
    }
  }

  /** The step that a receiver makes with a whole frame. */
  lemma ReceivesOne(frames: seq<seq<byte>>, i: nat, buf: seq<byte>, ts: seq<Tok>, n: nat, evs: seq<WriteEvent>)
    returns (buf': seq<byte>)
    requires Sendable(frames) && i < |frames| && |buf| == BUF_SIZE && HoldsAt(ts, n, Wire(frames[i]))
    ensures |buf'| == BUF_SIZE && Fit(Lengths(frames), buf) && Fit(Lengths(frames), buf')
    ensures var (sent, rest) := AckWrites(evs, 0); var m := n + |frames[i]| + 8;
      && SuffixOf(rest, evs) && (sent == 3 <==> NoFailure(evs, rest))
      && ReceiverAfter(Lengths(frames), buf, frames[..i], ts, n, evs)
         == if sent < 3 then After(Rx(Acking(sent), buf', frames[..i]), m, rest)
            else ReceiverAfter(Lengths(frames), buf', frames[..i + 1], ts, m, rest)
  {
    var p := frames[i];
    var r := Drive(Init(buf), |p|, ts, n);
    assert START[..0] == [];
    FrameArrives(p, buf, ts, n, 0);
    ReceiverStep(Lengths(frames), buf, frames[..i], ts, n, evs);
    AckGoesOut(evs, 0);
    buf' := r.st.buf;
    assert buf'[..|p|] == p;
    assert frames[..i] + [p] == frames[..i + 1];
  }

  /** A whole frame whose acknowledgement goes out is stored for good. */
  lemma ReceivesFirst(frames: seq<seq<byte>>, i: nat, i': nat, buf: seq<byte>, ts: seq<Tok>, n: nat,
                      evs: seq<WriteEvent>)
    requires Sendable(frames) && i < |frames| && |buf| == BUF_SIZE && HoldsAt(ts, n, Wire(frames[i])) && i' == i + 1
    requires AckWrites(evs, 0).0 == 3
    ensures Fit(Lengths(frames), buf)
    ensures frames[..i'] <= ReceiverAfter(Lengths(frames), buf, frames[..i], ts, n, evs).st.acc
  {
    hide *;
    var (sent, rest) := AckWrites(evs, 0);
    var m := n + |frames[i]| + 8;
    var buf' := ReceivesOne(frames, i, buf, ts, n, evs);
    ReceiverKeeps(Lengths(frames), buf', frames[..i'], ts, m, rest);
  }

  /** A receiver whose input goes on with the frames it expects stores all of them,
      or else a write of an acknowledgement has failed; it never rejects a frame. */
  lemma {:induction false} ReceivesWires(frames: seq<seq<byte>>, i: nat, buf: seq<byte>, ts: seq<Tok>, n: nat,
                                         evs: seq<WriteEvent>)
    requires Sendable(frames) && i <= |frames| && |buf| == BUF_SIZE && HoldsAt(ts, n, WireFrom(frames, i))
    ensures Fit(Lengths(frames), buf)
    ensures var a := ReceiverAfter(Lengths(frames), buf, frames[..i], ts, n, evs);
      && SuffixOf(a.evs, evs) && a.st.acc <= frames && (a.st.pc.RxDone? || a.st.pc.Acking?)
      && (a.st.pc.RxDone? <==> NoFailure(evs, a.evs))
      && (a.st.pc.RxDone? ==> a.st.acc == frames && a.pos == n + |WireFrom(frames, i)|)
    decreases |frames| - i
  {
    if i < |frames| {
      WireFirst(frames, i, ts, n);
      var buf' := ReceivesOne(frames, i, buf, ts, n, evs);
      var (sent, rest) := AckWrites(evs, 0);
      hide ReceiverAfter, AckWrites, WireFrom, HoldsAt, NoFailure, SuffixOf, Fit;
      if sent == 3 {
        var m := n + |frames[i]| + 8;
        ReceivesWires(frames, i + 1, buf', ts, m, rest);
        var e := ReceiverAfter(Lengths(frames), buf', frames[..i + 1], ts, m, rest).evs;
        SuffixTrans(e, rest, evs);
        NoFailureSplit(evs, rest, e);
      }
    } else {
      assert frames[..i] == frames;
    }
  }

  /** The end of a receiver whose input ends at place m before the last frame: it
      has seen the end there, or a write of an acknowledgement has failed. */
  predicate CutShort(a: After<Rx>, frames: seq<seq<byte>>, evs: seq<WriteEvent>, m: nat) {
    && SuffixOf(a.evs, evs) && a.st.acc <= frames && (a.st.pc.RxFail? || a.st.pc.Acking?)
    && (a.st.pc.RxFail? ==> a.pos > m)
    && (a.st.pc.RxFail? <==> NoFailure(evs, a.evs))
  }

  lemma CutShortBefore(a: After<Rx>, frames: seq<seq<byte>>, rest: seq<WriteEvent>, evs: seq<WriteEvent>, m: nat)
    requires CutShort(a, frames, rest, m) && SuffixOf(rest, evs) && NoFailure(evs, rest)
    ensures CutShort(a, frames, evs, m)
  {
    hide SuffixOf, NoFailure;
    SuffixTrans(a.evs, rest, evs);
    NoFailureSplit(evs, rest, a.evs);
  }

  /** When the input is cut in the middle of the frames, the receiver fails: it has
      seen the end, or else a write of an acknowledgement has failed before that. */
  lemma {:induction false} ReceivesCut(frames: seq<seq<byte>>, i: nat, buf: seq<byte>, ts: seq<Tok>, n: nat,
                                       evs: seq<WriteEvent>, k: nat, end: nat)
    requires Sendable(frames) && i <= |frames| && |buf| == BUF_SIZE && k < |WireFrom(frames, i)|
    requires HoldsAt(ts, n, WireFrom(frames, i)[..k]) && end == n + k && CutAt(ts, end)
    ensures Fit(Lengths(frames), buf)
    ensures CutShort(ReceiverAfter(Lengths(frames), buf, frames[..i], ts, n, evs), frames, evs, end)
    decreases |frames| - i, 1
  {
    var len := |frames[i]| + 8;
    if k < len {
      WireCut(frames, i, ts, n, k);
      hide ReceiverAfter, HoldsAt, CutAt, WireFrom, Wire;
      CutHere(frames, i, buf, ts, n, evs, k, end);
    } else {
      var m, j, i' := n + len, k - len, i + 1;
      WireComes(frames, i, ts, n, k, len, m, j);
      hide *;
      CutLater(frames, i, i', buf, ts, n, m, evs, len, j, end);
    }
  }

  lemma WireCut(frames: seq<seq<byte>>, i: nat, ts: seq<Tok>, n: nat, k: nat)
    requires i < |frames| && k < |frames[i]| + 8 && k <= |WireFrom(frames, i)|
    requires HoldsAt(ts, n, WireFrom(frames, i)[..k])
    ensures HoldsAt(ts, n, Wire(frames[i])[..k])
  {
    assert WireFrom(frames, i) == Wire(frames[i]) + WireFrom(frames, i + 1);
    assert WireFrom(frames, i)[..k] == Wire(frames[i])[..k];
  }

  lemma {:induction false} CutLater(frames: seq<seq<byte>>, i: nat, i': nat, buf: seq<byte>, ts: seq<Tok>,
                                    n: nat, m: nat, evs: seq<WriteEvent>, len: nat, j: nat, end: nat)
    requires Sendable(frames) && i < |frames| && i' == i + 1 && |buf| == BUF_SIZE
    requires len == |frames[i]| + 8 && m == n + len && end == m + j && HoldsAt(ts, n, Wire(frames[i]))
    requires j < |WireFrom(frames, i')| && HoldsAt(ts, m, WireFrom(frames, i')[..j]) && CutAt(ts, end)
    ensures Fit(Lengths(frames), buf)
    ensures CutShort(ReceiverAfter(Lengths(frames), buf, frames[..i], ts, n, evs), frames, evs, end)
    decreases |frames| - i, 0
  {
    hide *;
    var (sent, rest) := AckWrites(evs, 0);
    var buf' := ReceivesOne(frames, i, buf, ts, n, evs);
    if sent == 3 {
      ReceivesCut(frames, i', buf', ts, m, rest, j, end);
      CutShortBefore(ReceiverAfter(Lengths(frames), buf', frames[..i'], ts, m, rest), frames, rest, evs, end);
    } else {
      AckFailed(sent, buf', frames, i, m, evs, rest, end);
    }
  }

  lemma AckFailed(sent: nat, buf: seq<byte>, frames: seq<seq<byte>>, i: nat, pos: nat, evs: seq<WriteEvent>,
                  rest: seq<WriteEvent>, m: nat)
    requires i <= |frames| && SuffixOf(rest, evs) && !NoFailure(evs, rest)
    ensures CutShort(After(Rx(Acking(sent), buf, frames[..i]), pos, rest), frames, evs, m)
  {
  }

  lemma CutHere(frames: seq<seq<byte>>, i: nat, buf: seq<byte>, ts: seq<Tok>, n: nat,
                evs: seq<WriteEvent>, k: nat, end: nat)
    requires Sendable(frames) && i < |frames| && |buf| == BUF_SIZE && k < |frames[i]| + 8
    requires HoldsAt(ts, n, Wire(frames[i])[..k]) && end == n + k && CutAt(ts, end)
    ensures Fit(Lengths(frames), buf)
    ensures ReceiverAfter(Lengths(frames), buf, frames[..i], ts, n, evs).st.acc == frames[..i]
    ensures CutShort(ReceiverAfter(Lengths(frames), buf, frames[..i], ts, n, evs), frames, evs, end)
  {
    assert PhaseAt(frames[i], 0) == Hunt([]) && Stored(frames[i], 0) == [];
    hide HoldsAt, Wire, CutAt, PhaseAt, Stored, AckWrites;
    FrameCut(frames[i], buf, ts, n, 0, k);
    ReceiverStep(Lengths(frames), buf, frames[..i], ts, n, evs);
  }

  /** The length of the frames from number i up to number j. */
  function WireLength(frames: seq<seq<byte>>, i: nat, j: nat): nat
    requires i <= j <= |frames|
    decreases j - i
  {
    if i == j then 0 else |frames[i]| + 8 + WireLength(frames, i + 1, j)
  }

  /** acc holds frames i.. as far as they came within k bytes. */
  predicate CameWhole(frames: seq<seq<byte>>, i: nat, acc: seq<seq<byte>>, k: nat) {
    i <= |acc| && acc <= frames && WireLength(frames, i, |acc|) <= k
  }

  lemma CameNone(frames: seq<seq<byte>>, i: nat, k: nat)
    requires i <= |frames|
    ensures CameWhole(frames, i, frames[..i], k)
  {
  }

  lemma CameOne(frames: seq<seq<byte>>, i: nat, i': nat, acc: seq<seq<byte>>, len: nat, k: nat, j: nat)
    requires i < |frames| && i' == i + 1 && len == |frames[i]| + 8 && k == len + j && CameWhole(frames, i', acc, j)
    ensures CameWhole(frames, i, acc, k)
  {
  }

  /** Every frame that is stored has come whole. */
  lemma {:induction false} StoredCame(frames: seq<seq<byte>>, i: nat, buf: seq<byte>, ts: seq<Tok>, n: nat,
                                      evs: seq<WriteEvent>, k: nat)
    requires Sendable(frames) && i <= |frames| && |buf| == BUF_SIZE && k <= |WireFrom(frames, i)|
    requires HoldsAt(ts, n, WireFrom(frames, i)[..k]) && (k < |WireFrom(frames, i)| ==> CutAt(ts, n + k))
    ensures Fit(Lengths(frames), buf)
    ensures CameWhole(frames, i, ReceiverAfter(Lengths(frames), buf, frames[..i], ts, n, evs).st.acc, k)
    decreases |frames| - i, 1
  {
    CameNone(frames, i, k);
    if i < |frames| {
      var len := |frames[i]| + 8;
      if k < len {
        WireFirst(frames, i, ts, n);
        WireCut(frames, i, ts, n, k);
        hide ReceiverAfter, HoldsAt, CutAt, WireFrom, Wire, CameWhole;
        CutHere(frames, i, buf, ts, n, evs, k, n + k);
      } else {
        var m, j, i' := n + len, k - len, i + 1;
        WireComes(frames, i, ts, n, k, len, m, j);
        assert n + k == m + j;
        assert j < |WireFrom(frames, i')| ==> CutAt(ts, m + j);
        hide *;
        StoredMore(frames, i, i', buf, ts, n, m, evs, len, k, j);
      }
    }
  }

  lemma {:induction false} StoredMore(frames: seq<seq<byte>>, i: nat, i': nat, buf: seq<byte>, ts: seq<Tok>, n: nat,
                                      m: nat, evs: seq<WriteEvent>, len: nat, k: nat, j: nat)
    requires Sendable(frames) && i < |frames| && i' == i + 1 && |buf| == BUF_SIZE
    requires len == |frames[i]| + 8 && k == len + j && m == n + len && HoldsAt(ts, n, Wire(frames[i]))
    requires j <= |WireFrom(frames, i')| && HoldsAt(ts, m, WireFrom(frames, i')[..j])
    requires j < |WireFrom(frames, i')| ==> CutAt(ts, m + j)
    ensures Fit(Lengths(frames), buf)
    ensures CameWhole(frames, i, ReceiverAfter(Lengths(frames), buf, frames[..i], ts, n, evs).st.acc, k)
    decreases |frames| - i, 0
  {
    hide *;
    var (sent, rest) := AckWrites(evs, 0);
    var buf' := ReceivesOne(frames, i, buf, ts, n, evs);
    CameNone(frames, i, k);
    if sent == 3 {
      StoredCame(frames, i', buf', ts, m, rest, j);
      CameOne(frames, i, i', ReceiverAfter(Lengths(frames), buf', frames[..i'], ts, m, rest).st.acc, len, k, j);
    }
  }

  lemma WireComes(frames: seq<seq<byte>>, i: nat, ts: seq<Tok>, n: nat, k: nat, len: nat, m: nat, j: nat)
    requires i < |frames| && len == |frames[i]| + 8 <= k <= |WireFrom(frames, i)| && m == n + len && j == k - len
    requires HoldsAt(ts, n, WireFrom(frames, i)[..k])
    ensures var more := WireFrom(frames, i + 1);
      HoldsAt(ts, n, Wire(frames[i])) && |WireFrom(frames, i)| == len + |more| && HoldsAt(ts, m, more[..j])
  {
    var front, more := Wire(frames[i]), WireFrom(frames, i + 1);
    assert WireFrom(frames, i)[..k] == front + more[..j];
    HoldsBoth(ts, n, front, more[..j]);
  }

  /** After the end nothing is received any more, and no answer comes. */
  lemma NothingAfterEnd(lens: seq<nat>, buf: seq<byte>, ts: seq<Tok>, n: nat, evs: seq<WriteEvent>)
    requires Fit(lens, buf) && |lens| > 0 && CutAt(ts, n)
    ensures ReceiverAfter(lens, buf, [], ts, n, evs) == After(Rx(RxFail, buf, []), n + 1, evs)
  {
    assert At(ts, n) == Break;
    assert Drive(Init(buf), lens[0], ts, n) == Drive(Rec(Rejected, buf), lens[0], ts, n + 1);
  }

  lemma NoAnswerAfterEnd(frames: seq<seq<byte>>, ts: seq<Tok>, n: nat, evs: seq<WriteEvent>)
    requires |frames| > 0 && CutAt(ts, n)
    ensures !SenderAfter(frames, 0, ts, n, evs).st.pc.TxDone?
  {
    assert At(ts, n) == Break;
    assert Found(ts, n, 3) == [];
  }
}
