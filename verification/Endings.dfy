/** How a session ends, by what its connection delivers and takes: completely on
    one that is not cut, in order on one that is. */
module Endings {
  import opened Bytes
  import opened Channel
  import opened Framing
  import opened Reception
  import opened Transmission
  import opened Protocol
  import opened Streams
  import opened Outcomes
  import opened Memory
  import opened Challenge
  import opened Parties
  import opened SharedPage
  import opened PufCaller
  import opened Session
  import opened EndToEnd

  // ---------------------------------------------------------------- results depend only on what was read

  ghost predicate SameTokens(ts: seq<Tok>, us: seq<Tok>, a: nat, b: nat) {
    forall x: nat | a <= x < b :: At(ts, x) == At(us, x)
  }

  lemma {:induction false} DriveLocal(st: Rec, len: nat, ts: seq<Tok>, us: seq<Tok>, n: nat, m: nat)
    requires st.Ok(len) && Drive(st, len, ts, n).n <= m && SameTokens(ts, us, n, m)
    ensures Drive(st, len, us, n) == Drive(st, len, ts, n)
    decreases m - n
  {
    if st.ph.Final() {
      DriveEnds(st, len, ts, n);
      DriveEnds(st, len, us, n);
    } else {
      DriveOn(st, len, ts, n);
      DriveOn(st, len, us, n);
      assert At(ts, n) == At(us, n);
      DriveLocal(Step(st, len, At(ts, n)), len, ts, us, n + 1, m);
    }
  }

  lemma FoundLocal(ts: seq<Tok>, us: seq<Tok>, n: nat, len: nat)
    requires SameTokens(ts, us, n, n + Cost(len, Found(ts, n, len)))
    ensures Found(us, n, len) == Found(ts, n, len)
  {
    var d := Found(ts, n, len);
    forall i: nat | n <= i < n + |d|
      ensures At(us, i) == Byte(d[i - n])
    {
      assert At(ts, i) == Byte(d[i - n]);
    }
    FindsUnique(us, n, len, Found(us, n, len), d);
  }

  lemma {:induction false} ReceiverLocal(lens: seq<nat>, buf: seq<byte>, acc: seq<seq<byte>>, ts: seq<Tok>,
                                         us: seq<Tok>, n: nat, evs: seq<WriteEvent>, m: nat)
    requires Fit(lens, buf) && ReceiverAfter(lens, buf, acc, ts, n, evs).pos <= m && SameTokens(ts, us, n, m)
    ensures n <= ReceiverAfter(lens, buf, acc, ts, n, evs).pos
    ensures ReceiverAfter(lens, buf, acc, us, n, evs) == ReceiverAfter(lens, buf, acc, ts, n, evs)
    decreases |lens| - |acc|
  {
    if |acc| < |lens| {
      var len := lens[|acc|];
      var r := Drive(Init(buf), len, ts, n);
      var (sent, rest) := AckWrites(evs, 0);
      ReceiverStep(lens, buf, acc, ts, n, evs);
      ReceiverStep(lens, buf, acc, us, n, evs);
      ReceiverGrows(lens, buf, acc, ts, n, evs);
      DriveLocal(Init(buf), len, ts, us, n, m);
      hide ReceiverAfter, Drive, AckWrites;
      if r.st.ph.Accepted? && sent == 3 {
        ReceiverLocal(lens, r.st.buf, acc + [r.st.buf[..len]], ts, us, r.n, rest, m);
      }
    }
  }

  lemma {:induction false} ReceiverGrows(lens: seq<nat>, buf: seq<byte>, acc: seq<seq<byte>>, ts: seq<Tok>, n: nat,
                                         evs: seq<WriteEvent>)
    requires Fit(lens, buf)
    ensures n <= ReceiverAfter(lens, buf, acc, ts, n, evs).pos
    ensures |acc| < |lens| ==> Drive(Init(buf), lens[|acc|], ts, n).n <= ReceiverAfter(lens, buf, acc, ts, n, evs).pos
    decreases |lens| - |acc|
  {
    if |acc| < |lens| {
      var len := lens[|acc|];
      var r := Drive(Init(buf), len, ts, n);
      var (sent, rest) := AckWrites(evs, 0);
      ReceiverStep(lens, buf, acc, ts, n, evs);
      hide ReceiverAfter, Drive, AckWrites;
      if r.st.ph.Accepted? && sent == 3 {
        ReceiverGrows(lens, r.st.buf, acc + [r.st.buf[..len]], ts, r.n, rest);
      }
    }
  }

  lemma {:induction false} SenderGrows(frames: seq<seq<byte>>, i: nat, ts: seq<Tok>, n: nat, evs: seq<WriteEvent>)
    requires i <= |frames|
    ensures n <= SenderAfter(frames, i, ts, n, evs).pos
    decreases |frames| - i
  {
    if i < |frames| {
      var (k, rest) := FrameWrites(evs, |frames[i]|);
      SenderStep(frames, i, ts, n, evs);
      hide SenderAfter, FrameWrites, Found;
      if k == |frames[i]| + 8 && Found(ts, n, 3) == ACK {
        SenderGrows(frames, i + 1, ts, n + 3, rest);
      }
    }
  }

  lemma {:induction false} SenderLocal(frames: seq<seq<byte>>, i: nat, ts: seq<Tok>, us: seq<Tok>, n: nat,
                                       evs: seq<WriteEvent>, m: nat)
    requires i <= |frames| && SenderAfter(frames, i, ts, n, evs).pos <= m && SameTokens(ts, us, n, m)
    ensures SenderAfter(frames, i, us, n, evs) == SenderAfter(frames, i, ts, n, evs)
    decreases |frames| - i
  {
    if i < |frames| {
      var (k, rest) := FrameWrites(evs, |frames[i]|);
      var d := Found(ts, n, 3);
      SenderStep(frames, i, ts, n, evs);
      SenderStep(frames, i, us, n, evs);
      hide SenderAfter, FrameWrites, Found;
      if k == |frames[i]| + 8 {
        if d == ACK {
          SenderGrows(frames, i + 1, ts, n + 3, rest);
        }
        FoundLocal(ts, us, n, 3);
        if d == ACK {
          SenderLocal(frames, i + 1, ts, us, n + 3, rest, m);
        }
      }
    }
  }

  // ---------------------------------------------------------------- the six exchanges, by what they are given

  const BLANK: seq<byte> := Rep(0, BUF_SIZE)

  /** A reception on the input ts, between two places. */
  ghost predicate Took(lens: seq<nat>, ts: seq<Tok>, e0: Spot, e1: Spot, got: bool) {
    && Fit(lens, BLANK)
    && var a := ReceiverAfter(lens, BLANK, [], ts, e0.pos, e0.evs);
    && a.pos == e1.pos && a.evs == e1.evs && (got <==> a.st.pc.RxDone?)
  }

  ghost predicate Replied(frames: seq<seq<byte>>, ts: seq<Tok>, e0: Spot, e1: Spot, sent: bool) {
    var a := SenderAfter(frames, 0, ts, e0.pos, e0.evs);
    a.pos == e1.pos && a.evs == e1.evs && (sent <==> a.st.pc.TxDone?)
  }

  /** Three receptions, of frames as long as those of fs, and then responses up to
      the first that fails. */
  ghost predicate Played(fs: seq<seq<seq<byte>>>, gs: seq<seq<seq<byte>>>, ts: seq<Tok>, w: seq<Spot>, got: seq<bool>,
                         sent: nat) {
    && |fs| == |gs| == |got| == 3 && |w| == 7 && sent <= 3
    && (forall k: nat | k < 3 :: Sendable(fs[k]) && Sendable(gs[k]))
    && (forall k: nat | k < 3 :: Took(Lengths(fs[k]), ts, w[k], w[k + 1], got[k]))
    && (forall k: nat | k < 3 :: Response(gs[k], ts, w[3 + k], w[4 + k], k, sent))
  }

  /** Response number k, which is not tried when an earlier one failed. */
  ghost predicate Response(frames: seq<seq<byte>>, ts: seq<Tok>, e0: Spot, e1: Spot, k: nat, sent: nat) {
    if k <= sent then Replied(frames, ts, e0, e1, k < sent) else e1 == e0
  }

  /** One after the other the responses are taken whole. */
  predicate TakesAll(gs: seq<seq<seq<byte>>>, k: nat, evs: seq<WriteEvent>)
    requires k <= |gs|
    decreases |gs| - k
  {
    k == |gs| || (TakesFrames(gs[k], 0, evs) && TakesAll(gs, k + 1, evs[Min(|evs|, 3 * |gs[k]|)..]))
  }

  predicate AllGot(got: seq<bool>, k: nat) {
    forall j | k <= j < |got| :: got[j]
  }

  // ---------------------------------------------------------------- a connection that is not cut

  /** One reception, when the input goes on with its frames. */
  lemma TookWires(frames: seq<seq<byte>>, ts: seq<Tok>, e0: Spot, e1: Spot, got: bool, more: seq<byte>)
    requires Sendable(frames) && Took(Lengths(frames), ts, e0, e1, got)
    requires HoldsAt(ts, e0.pos, WireFrom(frames, 0) + more)
    ensures SuffixOf(e1.evs, e0.evs) && (got <==> NoFailure(e0.evs, e1.evs)) && (got ==> HoldsAt(ts, e1.pos, more))
  {
    HoldsBoth(ts, e0.pos, WireFrom(frames, 0), more);
    assert frames[..0] == [];
    hide HoldsAt, ReceiverAfter, WireFrom, NoFailure, SuffixOf;
    ReceivesWires(frames, 0, BLANK, ts, e0.pos, e0.evs);
  }

  lemma TookMeets(lens: seq<nat>, ts: seq<Tok>, e0: Spot, e1: Spot, got: bool)
    requires Took(lens, ts, e0, e1, got)
    ensures SuffixOf(e1.evs, e0.evs) && e0.pos <= e1.pos
  {
    ReceiverWrites(lens, BLANK, [], ts, e0.pos, e0.evs);
    ReceiverGrows(lens, BLANK, [], ts, e0.pos, e0.evs);
  }

  lemma {:induction false} GotFrom(fs: seq<seq<seq<byte>>>, gs: seq<seq<seq<byte>>>, ts: seq<Tok>, w: seq<Spot>,
                                   got: seq<bool>, sent: nat, k: nat, more: seq<byte>)
    requires Played(fs, gs, ts, w, got, sent) && k <= 3
    ensures SuffixOf(w[3].evs, w[k].evs)
    ensures HoldsAt(ts, w[k].pos, AllWires(fs, k) + more) ==>
              && (AllGot(got, k) <==> NoFailure(w[k].evs, w[3].evs))
              && (AllGot(got, k) ==> HoldsAt(ts, w[3].pos, more))
    decreases 3 - k
  {
    if k == 3 {
      assert AllWires(fs, k) + more == more;
    } else {
      GotFrom(fs, gs, ts, w, got, sent, k + 1, more);
      var tail := AllWires(fs, k + 1) + more;
      assert AllWires(fs, k) + more == WireFrom(fs[k], 0) + tail;
      assert Took(Lengths(fs[k]), ts, w[k], w[k + 1], got[k]) && Sendable(fs[k]);
      assert AllGot(got, k) <==> got[k] && AllGot(got, k + 1);
      hide *;
      TookMeets(Lengths(fs[k]), ts, w[k], w[k + 1], got[k]);
      SuffixTrans(w[3].evs, w[k + 1].evs, w[k].evs);
      NoFailureSplit(w[k].evs, w[k + 1].evs, w[3].evs);
      if HoldsAt(ts, w[k].pos, AllWires(fs, k) + more) {
        TookWires(fs[k], ts, w[k], w[k + 1], got[k], tail);
      }
    }
  }

  lemma AnsweredExactly(frames: seq<seq<byte>>, ts: seq<Tok>, e0: Spot, e1: Spot, sent: bool)
    requires Sendable(frames) && Replied(frames, ts, e0, e1, sent)
    ensures sent <==> HoldsAt(ts, e0.pos, Acks(|frames|)) && TakesFrames(frames, 0, e0.evs)
  {
    AcksHeld(ts, e0.pos, |frames|);
    hide HoldsAt, SenderAfter, TakesFrames, AcksAt, SuffixOf, Acks;
    SendsExactly(frames, 0, |frames|, ts, e0.pos, e0.evs);
  }

  lemma AnsweredUses(frames: seq<seq<byte>>, ts: seq<Tok>, e0: Spot, e1: Spot)
    requires Sendable(frames) && Replied(frames, ts, e0, e1, true)
    ensures e1.pos == e0.pos + 3 * |frames| && e1.evs == e0.evs[Min(|e0.evs|, 3 * |frames|)..]
  {
    hide SenderAfter, SuffixOf;
    SentWhole(frames, 0, |frames|, ts, e0.pos, e0.evs);
    hide Replied, Min;
    SuffixIs(e1.evs, e0.evs, 3 * |frames|);
  }

  /** One response, when the input goes on with its acknowledgements. */
  lemma AnsweredAcks(frames: seq<seq<byte>>, ts: seq<Tok>, e0: Spot, e1: Spot, sent: bool, more: seq<byte>)
    requires Sendable(frames) && Replied(frames, ts, e0, e1, sent) && HoldsAt(ts, e0.pos, Acks(|frames|) + more)
    ensures sent <==> TakesFrames(frames, 0, e0.evs)
    ensures sent ==> HoldsAt(ts, e1.pos, more) && e1.evs == e0.evs[Min(|e0.evs|, 3 * |frames|)..]
  {
    hide *;
    HoldsBoth(ts, e0.pos, Acks(|frames|), more);
    AcksLength(|frames|);
    AnsweredExactly(frames, ts, e0, e1, sent);
    if sent {
      AnsweredUses(frames, ts, e0, e1);
    }
  }

  lemma SuffixIs(e: seq<WriteEvent>, evs: seq<WriteEvent>, m: nat)
    requires SuffixOf(e, evs) && |e| == |evs| - Min(|evs|, m)
    ensures e == evs[Min(|evs|, m)..]
  {
  }

  lemma {:induction false} SentFrom(fs: seq<seq<seq<byte>>>, gs: seq<seq<seq<byte>>>, ts: seq<Tok>, w: seq<Spot>,
                                    got: seq<bool>, sent: nat, k: nat)
    requires Played(fs, gs, ts, w, got, sent) && k <= sent && HoldsAt(ts, w[3 + k].pos, AllAcks(gs, k))
    ensures sent == 3 <==> TakesAll(gs, k, w[3 + k].evs)
    decreases 3 - k
  {
    if k < 3 {
      assert Response(gs[k], ts, w[3 + k], w[4 + k], k, sent) && Sendable(gs[k]);
      AnsweredAcks(gs[k], ts, w[3 + k], w[4 + k], k < sent, AllAcks(gs, k + 1));
      if k < sent {
        hide HoldsAt, Replied;
        SentFrom(fs, gs, ts, w, got, sent, k + 1);
      }
    }
  }

  /** When the input holds all that the server sends: every challenge is received
      if and only if no acknowledgement fails, and then every response is sent if
      and only if its frames are taken whole. */
  lemma WholeInput(fs: seq<seq<seq<byte>>>, gs: seq<seq<seq<byte>>>, ts: seq<Tok>, w: seq<Spot>, got: seq<bool>,
                   sent: nat)
    requires Played(fs, gs, ts, w, got, sent) && HoldsAt(ts, w[0].pos, AllWires(fs, 0) + AllAcks(gs, 0))
    ensures AllGot(got, 0) <==> NoFailure(w[0].evs, w[3].evs)
    ensures AllGot(got, 0) ==> (sent == 3 <==> TakesAll(gs, 0, w[3].evs))
  {
    hide HoldsAt, NoFailure, TakesAll, AllGot;
    GotFrom(fs, gs, ts, w, got, sent, 0, AllAcks(gs, 0));
    if AllGot(got, 0) {
      SentFrom(fs, gs, ts, w, got, sent, 0);
    }
  }

  // ---------------------------------------------------------------- as far as it was read

  lemma AnsweredMeets(frames: seq<seq<byte>>, ts: seq<Tok>, e0: Spot, e1: Spot, sent: bool)
    requires Replied(frames, ts, e0, e1, sent)
    ensures e0.pos <= e1.pos
  {
    SenderGrows(frames, 0, ts, e0.pos, e0.evs);
  }

  lemma {:induction false} Onward(fs: seq<seq<seq<byte>>>, gs: seq<seq<seq<byte>>>, ts: seq<Tok>, w: seq<Spot>,
                                  got: seq<bool>, sent: nat, k: nat, j: nat)
    requires Played(fs, gs, ts, w, got, sent) && k <= j <= 6
    ensures w[k].pos <= w[j].pos
    decreases j - k
  {
    if k < j {
      Onward(fs, gs, ts, w, got, sent, k + 1, j);
      hide ReceiverAfter, SenderAfter, Fit;
      if k < 3 {
        TookMeets(Lengths(fs[k]), ts, w[k], w[k + 1], got[k]);
      } else {
        var i := k - 3;
        assert Response(gs[i], ts, w[3 + i], w[4 + i], i, sent);
        if i <= sent {
          AnsweredMeets(gs[i], ts, w[3 + i], w[4 + i], i < sent);
        }
      }
    }
  }

  lemma TookLocal(lens: seq<nat>, ts: seq<Tok>, us: seq<Tok>, e0: Spot, e1: Spot, got: bool)
    requires Took(lens, ts, e0, e1, got) && SameTokens(ts, us, e0.pos, e1.pos)
    ensures Took(lens, us, e0, e1, got)
  {
    ReceiverLocal(lens, BLANK, [], ts, us, e0.pos, e0.evs, e1.pos);
  }

  lemma AnsweredLocal(frames: seq<seq<byte>>, ts: seq<Tok>, us: seq<Tok>, e0: Spot, e1: Spot, sent: bool)
    requires Replied(frames, ts, e0, e1, sent) && SameTokens(ts, us, e0.pos, e1.pos)
    ensures Replied(frames, us, e0, e1, sent)
  {
    SenderLocal(frames, 0, ts, us, e0.pos, e0.evs, e1.pos);
  }

  /** The six exchanges depend only on the input that was read. */
  lemma PlayedLocal(fs: seq<seq<seq<byte>>>, gs: seq<seq<seq<byte>>>, ts: seq<Tok>, us: seq<Tok>, w: seq<Spot>,
                    got: seq<bool>, sent: nat)
    requires Played(fs, gs, ts, w, got, sent) && SameTokens(ts, us, w[0].pos, w[6].pos)
    ensures Played(fs, gs, us, w, got, sent)
  {
    hide Took, Replied;
    forall k: nat | k < 3
      ensures Took(Lengths(fs[k]), us, w[k], w[k + 1], got[k])
    {
      Onward(fs, gs, ts, w, got, sent, 0, k);
      Onward(fs, gs, ts, w, got, sent, k + 1, 6);
      TookLocal(Lengths(fs[k]), ts, us, w[k], w[k + 1], got[k]);
    }
    forall k: nat | k < 3
      ensures Response(gs[k], us, w[3 + k], w[4 + k], k, sent)
    {
      Onward(fs, gs, ts, w, got, sent, 0, 3 + k);
      Onward(fs, gs, ts, w, got, sent, 4 + k, 6);
      assert Response(gs[k], ts, w[3 + k], w[4 + k], k, sent);
      if k <= sent {
        AnsweredLocal(gs[k], ts, us, w[3 + k], w[4 + k], k < sent);
      }
    }
  }

  /** What was read is the beginning of what the server sends, without an end. */
  ghost predicate ReadsOf(ts: seq<Tok>, a: nat, b: nat, w: seq<byte>) {
    a <= b <= a + |w| && HoldsAt(ts, a, w[..b - a])
  }

  /** The input, had the rest of it come. */
  lemma Continued(ts: seq<Tok>, a: nat, b: nat, w: seq<byte>) returns (us: seq<Tok>)
    requires ReadsOf(ts, a, b, w)
    ensures SameTokens(ts, us, a, b) && HoldsAt(us, a, w)
  {
    us := Take(ts, a) + Toks(w);
    forall x: nat | a <= x < a + |w|
      ensures At(us, x) == Byte(w[x - a])
    {
    }
    forall x: nat | a <= x < b
      ensures At(ts, x) == At(us, x)
    {
      assert At(ts, x) == Byte(w[..b - a][x - a]);
    }
  }

  lemma UncutPlay(fs: seq<seq<seq<byte>>>, gs: seq<seq<seq<byte>>>, ts: seq<Tok>, w: seq<Spot>, got: seq<bool>,
                  sent: nat)
    requires Played(fs, gs, ts, w, got, sent) && ReadsOf(ts, w[0].pos, w[6].pos, AllWires(fs, 0) + AllAcks(gs, 0))
    ensures AllGot(got, 0) <==> NoFailure(w[0].evs, w[3].evs)
    ensures AllGot(got, 0) ==> (sent == 3 <==> TakesAll(gs, 0, w[3].evs))
  {
    var us := Continued(ts, w[0].pos, w[6].pos, AllWires(fs, 0) + AllAcks(gs, 0));
    hide Played, AllGot, NoFailure, TakesAll, ReadsOf, HoldsAt, SameTokens;
    PlayedLocal(fs, gs, ts, us, w, got, sent);
    WholeInput(fs, gs, us, w, got, sent);
  }

  // ---------------------------------------------------------------- a connection that is cut

  /** At least m more writes fail, and no other kind of event is left. */
  predicate Dead(evs: seq<WriteEvent>, m: nat) {
    |evs| >= m && forall j | 0 <= j < |evs| :: Fails(evs[j])
  }

  /** A connection that fails a write fails the next m as well. */
  ghost predicate Lasting(evs: seq<WriteEvent>, m: nat) {
    forall i: nat | i < |evs| && Fails(evs[i]) && (forall j | 0 <= j < i :: !Fails(evs[j])) :: Dead(evs[i + 1..], m)
  }

  lemma LastingRest(evs: seq<WriteEvent>, rest: seq<WriteEvent>, m: nat)
    requires Lasting(evs, m) && SuffixOf(rest, evs)
    ensures NoFailure(evs, rest) ==> Lasting(rest, m)
    ensures StoppedBy(evs, rest) ==> Dead(rest, m)
  {
    var d := |evs| - |rest|;
    assert forall j | 0 <= j < |rest| :: rest[j] == evs[d + j];
    if NoFailure(evs, rest) {
      forall i: nat | i < |rest| && Fails(rest[i]) && (forall j | 0 <= j < i :: !Fails(rest[j]))
        ensures Dead(rest[i + 1..], m)
      {
        assert forall j | 0 <= j < d + i :: j >= d ==> evs[j] == rest[j - d];
        assert Dead(evs[d + i + 1..], m);
        assert evs[d + i + 1..] == rest[i + 1..];
      }
    }
    if StoppedBy(evs, rest) {
      assert Dead(evs[d - 1 + 1..], m);
    }
  }

  /** Nothing more can be received, or acknowledged, or sent. */
  ghost predicate Lost(ts: seq<Tok>, e: Spot, m: nat) {
    CutAt(ts, e.pos) || Dead(e.evs, m)
  }

  lemma DeadAck(evs: seq<WriteEvent>, m: nat)
    requires Dead(evs, m) && m > 0
    ensures var (sent, rest) := AckWrites(evs, 0); sent == 0 && Dead(rest, m - 1)
  {
  }

  lemma DeadFrame(evs: seq<WriteEvent>, m: nat, len: nat)
    requires Dead(evs, m) && m > 0
    ensures FrameWrites(evs, len).0 == 0
  {
  }

  lemma LostReception(lens: seq<nat>, ts: seq<Tok>, e0: Spot, e1: Spot, got: bool, m: nat)
    requires |lens| > 0 && Took(lens, ts, e0, e1, got) && Lost(ts, e0, m) && m > 0
    ensures !got && Lost(ts, e1, m - 1)
  {
    if CutAt(ts, e0.pos) {
      NothingAfterEnd(lens, BLANK, ts, e0.pos, e0.evs);
    } else {
      ReceiverStep(lens, BLANK, [], ts, e0.pos, e0.evs);
      DeadAck(e0.evs, m);
    }
  }

  lemma LostResponse(frames: seq<seq<byte>>, ts: seq<Tok>, e0: Spot, e1: Spot, sent: bool, m: nat)
    requires Sendable(frames) && Replied(frames, ts, e0, e1, sent) && Lost(ts, e0, m) && m > 0
    ensures !sent
  {
    if CutAt(ts, e0.pos) {
      NoAnswerAfterEnd(frames, ts, e0.pos, e0.evs);
    } else {
      SenderStep(frames, 0, ts, e0.pos, e0.evs);
      DeadFrame(e0.evs, m, |frames[0]|);
    }
  }

  /** Up to place e the input is what the server sent; it sent w from there on, of
      which k bytes come. */
  ghost predicate Flowing(ts: seq<Tok>, e: Spot, w: seq<byte>, k: nat, m: nat) {
    k <= |w| && HoldsAt(ts, e.pos, w[..k]) && CutAt(ts, e.pos + k) && Lasting(e.evs, m)
  }

  /** A reception from an input that may be cut: it is complete and all is well,
      or nothing more can come of the connection. */
  lemma FlowingReception(frames: seq<seq<byte>>, ts: seq<Tok>, e0: Spot, e1: Spot, got: bool, more: seq<byte>, k: nat,
                         m: nat)
    requires Sendable(frames) && Took(Lengths(frames), ts, e0, e1, got)
    requires Flowing(ts, e0, WireFrom(frames, 0) + more, k, m)
    ensures got ==> |WireFrom(frames, 0)| <= k && Flowing(ts, e1, more, k - |WireFrom(frames, 0)|, m)
    ensures !got ==> Lost(ts, e1, m)
  {
    var v := WireFrom(frames, 0);
    var n := |v|;
    assert frames[..0] == [];
    ReceiverWrites(Lengths(frames), BLANK, [], ts, e0.pos, e0.evs);
    LastingRest(e0.evs, e1.evs, m);
    if k < n {
      assert (v + more)[..k] == v[..k];
      ReceivesCut(frames, 0, BLANK, ts, e0.pos, e0.evs, k, e0.pos + k);
    } else {
      assert (v + more)[..k] == v + more[..k - n];
      HoldsBoth(ts, e0.pos, v, more[..k - n]);
      ReceivesWires(frames, 0, BLANK, ts, e0.pos, e0.evs);
    }
  }

  /** On a connection that is cut somewhere for good: the challenges received are
      the first ones, and there is no response before all of them are received. */
  lemma CutPlay(fs: seq<seq<seq<byte>>>, gs: seq<seq<seq<byte>>>, ts: seq<Tok>, w: seq<Spot>, got: seq<bool>, sent: nat,
                more: seq<byte>, cut: nat)
    requires Played(fs, gs, ts, w, got, sent) && Flowing(ts, w[0], AllWires(fs, 0) + more, cut, 3)
    ensures InOrder(got, 0) && (sent > 0 ==> AllGot(got, 0))
  {
    hide Took, Replied, Flowing, Lost;
    CutFrom(fs, gs, ts, w, got, sent, 0, more, cut);
  }

  /** From number k on, no challenge is received after one that is not. */
  predicate InOrder(got: seq<bool>, k: nat)
    requires |got| == 3
    decreases 3 - k
  {
    k >= 2 || ((got[k + 1] ==> got[k]) && InOrder(got, k + 1))
  }

  lemma OrderNext(got: seq<bool>, k: nat, k': nat)
    requires |got| == 3 && k < 3 && k' == k + 1 && got[k] && InOrder(got, k')
    ensures InOrder(got, k) && (AllGot(got, k') ==> AllGot(got, k))
  {
  }

  lemma OrderLast(got: seq<bool>, k: nat)
    requires |got| == 3 && forall j | k <= j < 3 :: !got[j]
    ensures InOrder(got, k)
    decreases 3 - k
  {
  }

  /** After the first k challenges were received. */
  lemma {:induction false} CutFrom(fs: seq<seq<seq<byte>>>, gs: seq<seq<seq<byte>>>, ts: seq<Tok>, w: seq<Spot>,
                                   got: seq<bool>, sent: nat, k: nat, more: seq<byte>, cut: nat)
    requires Played(fs, gs, ts, w, got, sent) && k <= 3 && Flowing(ts, w[k], AllWires(fs, k) + more, cut, 3)
    ensures InOrder(got, k) && (sent > 0 ==> AllGot(got, k))
    decreases 3 - k
  {
    if k < 3 {
      var k', tail := k + 1, AllWires(fs, k + 1) + more;
      assert AllWires(fs, k) + more == WireFrom(fs[k], 0) + tail;
      assert Took(Lengths(fs[k]), ts, w[k], w[k'], got[k]) && Sendable(fs[k]);
      hide *;
      FlowingReception(fs[k], ts, w[k], w[k'], got[k], tail, cut, 3);
      if got[k] {
        var rest := cut - |WireFrom(fs[k], 0)|;
        CutFrom(fs, gs, ts, w, got, sent, k', more, rest);
        OrderNext(got, k, k');
      } else {
        LostFrom(fs, gs, ts, w, got, sent, k', 3);
        OrderLast(got, k);
      }
    }
  }

  lemma {:induction false} LostFrom(fs: seq<seq<seq<byte>>>, gs: seq<seq<seq<byte>>>, ts: seq<Tok>, w: seq<Spot>,
                                    got: seq<bool>, sent: nat, k: nat, m: nat)
    requires Played(fs, gs, ts, w, got, sent) && k <= 3 && m > 3 - k && Lost(ts, w[k], m)
    ensures sent == 0 && forall j | k <= j < 3 :: !got[j]
    decreases 3 - k
  {
    hide Took, Replied, Lost;
    if k < 3 {
      assert Took(Lengths(fs[k]), ts, w[k], w[k + 1], got[k]) && Sendable(fs[k]);
      LostReception(Lengths(fs[k]), ts, w[k], w[k + 1], got[k], m);
      LostFrom(fs, gs, ts, w, got, sent, k + 1, m - 1);
    } else {
      assert Response(gs[0], ts, w[3 + 0], w[4 + 0], 0, sent) && Sendable(gs[0]);
      LostResponse(gs[0], ts, w[3], w[4], 0 < sent, m);
    }
  }

  // ---------------------------------------------------------------- agreement over all exchanges

  /** The receptions, with the state of the receiver at the end of each. */
  ghost predicate Legs(fs: seq<seq<seq<byte>>>, ts: seq<Tok>, w: seq<Spot>, c: seq<Act>, m: seq<nat>, rs: seq<Rx>) {
    && |fs| == |rs| == 3 && |w| >= 4 && Cuts(c, m, 0, 3)
    && forall k: nat | k < 3 :: OneLeg(fs[k], ts, w[k], w[k + 1], c, m[k], m[k + 1], rs[k])
  }

  ghost predicate OneLeg(frames: seq<seq<byte>>, ts: seq<Tok>, e0: Spot, e1: Spot, c: seq<Act>, lo: nat, hi: nat,
                         rx: Rx) {
    && Sendable(frames) && Fit(Lengths(frames), BLANK) && lo <= hi <= |c|
    && After(rx, e1.pos, e1.evs) == ReceiverAfter(Lengths(frames), BLANK, [], ts, e0.pos, e0.evs)
    && rx == RxRun(Lengths(frames), RxInit(BLANK), c, lo, hi)
  }

  /** How many frames were stored from reception k on, and how many bytes they took. */
  function FramesStored(rs: seq<Rx>, k: nat): nat
    requires k <= |rs|
    decreases |rs| - k
  {
    if k == |rs| then 0 else |rs[k].acc| + FramesStored(rs, k + 1)
  }

  function CameBytes(fs: seq<seq<seq<byte>>>, rs: seq<Rx>, k: nat): nat
    requires k <= |rs| == |fs| && forall j | k <= j < |rs| :: rs[j].acc <= fs[j]
    decreases |rs| - k
  {
    if k == |rs| then 0 else WireLength(fs[k], 0, |rs[k].acc|) + CameBytes(fs, rs, k + 1)
  }

  /** The writes of one reception. */
  lemma LegWrites(frames: seq<seq<byte>>, ts: seq<Tok>, e0: Spot, e1: Spot, c: seq<Act>, lo: nat, hi: nat, rx: Rx)
    requires OneLeg(frames, ts, e0, e1, c, lo, hi, rx)
    ensures AckStream(WritesIn(c, lo, hi), 0) && |WritesIn(c, lo, hi)| == AckBytes(rx)
  {
    NeverBad(Lengths(frames), BLANK, [], ts, e0.pos, e0.evs);
    hide RxRun, ReceiverAfter, WritesIn, AckStream;
    WritesAcks(Lengths(frames), RxInit(BLANK), c, lo, hi);
  }

  lemma {:induction false} NeverBad(lens: seq<nat>, buf: seq<byte>, acc: seq<seq<byte>>, ts: seq<Tok>, n: nat,
                                    evs: seq<WriteEvent>)
    requires Fit(lens, buf)
    ensures var rx := ReceiverAfter(lens, buf, acc, ts, n, evs).st; !rx.pc.RxBad? && (rx.pc.Acking? ==> rx.pc.sent < 3)
    decreases |lens| - |acc|
  {
    if |acc| < |lens| {
      var len := lens[|acc|];
      var r := Drive(Init(buf), len, ts, n);
      var (sent, rest) := AckWrites(evs, 0);
      ReceiverStep(lens, buf, acc, ts, n, evs);
      hide ReceiverAfter, Drive, AckWrites;
      if r.st.ph.Accepted? && sent == 3 {
        NeverBad(lens, r.st.buf, acc + [r.st.buf[..len]], ts, r.n, rest);
      }
    }
  }

  /** Of a reception from a connection that is lost nothing is stored, and nothing
      is written in it. */
  lemma LostLeg(frames: seq<seq<byte>>, ts: seq<Tok>, e0: Spot, e1: Spot, c: seq<Act>, lo: nat, hi: nat, rx: Rx, m: nat)
    requires OneLeg(frames, ts, e0, e1, c, lo, hi, rx) && Lost(ts, e0, m) && m > 0
    ensures rx.acc == [] && AckBytes(rx) == 0 && Lost(ts, e1, m - 1) && WritesIn(c, lo, hi) == []
  {
    LegWrites(frames, ts, e0, e1, c, lo, hi, rx);
    if CutAt(ts, e0.pos) {
      NothingAfterEnd(Lengths(frames), BLANK, ts, e0.pos, e0.evs);
    } else {
      ReceiverStep(Lengths(frames), BLANK, [], ts, e0.pos, e0.evs);
      DeadAck(e0.evs, m);
    }
  }

  /** A reception from an input that may be cut. */
  lemma FlowingLeg(frames: seq<seq<byte>>, ts: seq<Tok>, e0: Spot, e1: Spot, c: seq<Act>, lo: nat, hi: nat, rx: Rx,
                   more: seq<byte>, k: nat, m: nat)
    requires OneLeg(frames, ts, e0, e1, c, lo, hi, rx) && Flowing(ts, e0, WireFrom(frames, 0) + more, k, m)
    ensures rx.acc <= frames && WireLength(frames, 0, |rx.acc|) <= k
    ensures rx.pc.RxDone? ==>
              && rx.acc == frames && AckBytes(rx) == 3 * |rx.acc|
                  && |WireFrom(frames, 0)| == WireLength(frames, 0, |rx.acc|) <= k
              && Flowing(ts, e1, more, k - |WireFrom(frames, 0)|, m)
    ensures !rx.pc.RxDone? ==> Lost(ts, e1, m) && 3 * |rx.acc| <= AckBytes(rx) <= 3 * |rx.acc| + 2
  {
    var v := WireFrom(frames, 0);
    assert frames[..0] == [];
    NeverBad(Lengths(frames), BLANK, [], ts, e0.pos, e0.evs);
    FlowingReception(frames, ts, e0, e1, rx.pc.RxDone?, more, k, m);
    if rx.pc.RxDone? {
      FlowingDone(frames, ts, e0, e1, c, lo, hi, rx, more, k, m);
    }
    var j := Min(k, |v|);
    assert (v + more)[..k] == v[..j] + (if k > j then more[..k - j] else []);
    HoldsBoth(ts, e0.pos, v[..j], if k > j then more[..k - j] else []);
    hide ReceiverAfter, HoldsAt, WireFrom, CutAt, Lasting, RxRun;
    StoredCame(frames, 0, BLANK, ts, e0.pos, e0.evs, j);
  }

  lemma FlowingDone(frames: seq<seq<byte>>, ts: seq<Tok>, e0: Spot, e1: Spot, c: seq<Act>, lo: nat, hi: nat, rx: Rx,
                    more: seq<byte>, k: nat, m: nat)
    requires OneLeg(frames, ts, e0, e1, c, lo, hi, rx) && Flowing(ts, e0, WireFrom(frames, 0) + more, k, m)
    requires rx.pc.RxDone? && |WireFrom(frames, 0)| <= k
    ensures rx.acc == frames && |WireFrom(frames, 0)| == WireLength(frames, 0, |frames|)
  {
    var v := WireFrom(frames, 0);
    assert frames[..0] == [];
    assert (v + more)[..k] == v + more[..k - |v|];
    HoldsBoth(ts, e0.pos, v, more[..k - |v|]);
    hide ReceiverAfter, HoldsAt, WireFrom, CutAt, Lasting, RxRun;
    ReceivesWires(frames, 0, BLANK, ts, e0.pos, e0.evs);
    WholeLength(frames, 0);
  }

  lemma {:induction false} WholeLength(frames: seq<seq<byte>>, i: nat)
    requires i <= |frames|
    ensures |WireFrom(frames, i)| == WireLength(frames, i, |frames|)
    decreases |frames| - i
  {
    if i < |frames| {
      WholeLength(frames, i + 1);
    }
  }

  lemma AckStreams(a: seq<byte>, b: seq<byte>, n: nat)
    requires AckStream(a, 0) && |a| == 3 * n && AckStream(b, 0)
    ensures AckStream(a + b, 0)
  {
    var w := a + b;
    forall j | 0 <= j < |w|
      ensures w[j] == ACK[(0 + j) % 3]
    {
      if j >= |a| {
        assert b[j - |a|] == ACK[(0 + (j - |a|)) % 3];
        assert (3 * n + (j - |a|)) % 3 == (j - |a|) % 3;
      }
    }
  }

  /** From reception k on: what is stored are the first frames, each of which came
      whole, and the client has written one acknowledgement for each and less than
      one more. */
  ghost predicate Agreed(fs: seq<seq<seq<byte>>>, rs: seq<Rx>, k: nat, cut: nat, w: seq<byte>)
    requires k <= |rs| == |fs|
  {
    && (forall j | k <= j < |rs| :: rs[j].acc <= fs[j])
    && (forall i, j | k <= i < j < |rs| :: rs[i].acc != fs[i] ==> rs[j].acc == [])
    && CameBytes(fs, rs, k) <= cut
    && AckStream(w, 0) && 3 * FramesStored(rs, k) <= |w| <= 3 * FramesStored(rs, k) + 2
  }

  lemma {:induction false} LostLegs(fs: seq<seq<seq<byte>>>, ts: seq<Tok>, w: seq<Spot>, c: seq<Act>, m: seq<nat>,
                                    rs: seq<Rx>, k: nat, d: nat)
    requires Legs(fs, ts, w, c, m, rs) && k <= 3 && d > 3 - k && Lost(ts, w[k], d)
    ensures forall j | k <= j < 3 :: rs[j].acc == []
    ensures m[k] <= m[3] && WritesIn(c, m[k], m[3]) == []
    decreases 3 - k
  {
    if k < 3 {
      assert OneLeg(fs[k], ts, w[k], w[k + 1], c, m[k], m[k + 1], rs[k]);
      LostLeg(fs[k], ts, w[k], w[k + 1], c, m[k], m[k + 1], rs[k], d);
      hide OneLeg, Lost, WritesIn;
      LostLegs(fs, ts, w, c, m, rs, k + 1, d - 1);
      WritesSplit(c, m[k], m[k + 1], m[3]);
    }
  }

  lemma {:induction false} AgreeFrom(fs: seq<seq<seq<byte>>>, ts: seq<Tok>, w: seq<Spot>, c: seq<Act>, m: seq<nat>,
                                     rs: seq<Rx>, k: nat, more: seq<byte>, cut: nat)
    requires Legs(fs, ts, w, c, m, rs) && k <= 3 && Flowing(ts, w[k], AllWires(fs, k) + more, cut, 3)
    ensures m[k] <= m[3] && Agreed(fs, rs, k, cut, WritesIn(c, m[k], m[3]))
    decreases 3 - k
  {
    if k < 3 {
      var tail, n := AllWires(fs, k + 1) + more, |WireFrom(fs[k], 0)|;
      assert AllWires(fs, k) + more == WireFrom(fs[k], 0) + tail;
      assert OneLeg(fs[k], ts, w[k], w[k + 1], c, m[k], m[k + 1], rs[k]);
      hide OneLeg, Flowing, Lost, WritesIn, AckStream, WireLength, WireFrom, AllWires;
      FlowingLeg(fs[k], ts, w[k], w[k + 1], c, m[k], m[k + 1], rs[k], tail, cut, 3);
      LegWrites(fs[k], ts, w[k], w[k + 1], c, m[k], m[k + 1], rs[k]);
      if rs[k].pc.RxDone? {
        var rest, k' := cut - n, k + 1;
        AgreeFrom(fs, ts, w, c, m, rs, k', more, rest);
        WritesSplit(c, m[k], m[k'], m[3]);
        AgreeNext(fs, rs, k, k', n, rest, cut, WritesIn(c, m[k], m[k']), WritesIn(c, m[k'], m[3]));
      } else {
        LostLegs(fs, ts, w, c, m, rs, k + 1, 3);
        WritesSplit(c, m[k], m[k + 1], m[3]);
        AgreeLast(fs, rs, k, cut, WritesIn(c, m[k], m[k + 1]), WritesIn(c, m[k + 1], m[3]));
      }
    }
  }

  lemma AgreeNext(fs: seq<seq<seq<byte>>>, rs: seq<Rx>, k: nat, k': nat, n: nat, rest: nat, cut: nat, a: seq<byte>,
                  b: seq<byte>)
    requires k < |rs| == |fs| && k' == k + 1 && cut == n + rest && rs[k].acc == fs[k]
    requires n == WireLength(fs[k], 0, |rs[k].acc|)
    requires AckStream(a, 0) && |a| == 3 * |rs[k].acc| && Agreed(fs, rs, k', rest, b)
    ensures Agreed(fs, rs, k, cut, a + b)
  {
    hide WireLength, AckStream;
    AckStreams(a, b, |rs[k].acc|);
  }

  lemma AgreeLast(fs: seq<seq<seq<byte>>>, rs: seq<Rx>, k: nat, cut: nat, a: seq<byte>, b: seq<byte>)
    requires k < |rs| == |fs| && rs[k].acc <= fs[k] && WireLength(fs[k], 0, |rs[k].acc|) <= cut
    requires AckStream(a, 0) && 3 * |rs[k].acc| <= |a| <= 3 * |rs[k].acc| + 2 && b == []
    requires forall j | k < j < |rs| :: rs[j].acc == []
    ensures Agreed(fs, rs, k, cut, a + b)
  {
    hide WireLength, AckStream;
    assert a + b == a;
    NoneLeft(fs, rs, k + 1);
  }

  lemma {:induction false} NoneLeft(fs: seq<seq<seq<byte>>>, rs: seq<Rx>, k: nat)
    requires k <= |rs| == |fs| && forall j | k <= j < |rs| :: rs[j].acc == []
    ensures FramesStored(rs, k) == 0 && CameBytes(fs, rs, k) == 0
    decreases |rs| - k
  {
    if k < |rs| {
      NoneLeft(fs, rs, k + 1);
    }
  }

  lemma AckNotStart(r: nat, j: nat)
    requires j < |Acks(r)|
    ensures Acks(r)[j] != START[0]
  {
    AcksIndex(r, j);
  }

  /** Whoever finds r acknowledgements in what the client writes, perhaps followed
      by frames, has had no more than there are frames stored. */
  lemma AcksCounted(r: nat, n: nat, w: seq<byte>, x: seq<byte>)
    requires AckStream(w, 0) && |w| <= 3 * n + 2 && (x == [] || x[0] == START[0]) && Acks(r) <= w + x
    ensures r <= n
  {
    AcksLength(r);
    if r > n {
      AckNotStart(r, |w|);
    }
  }

  /** A sender writes the start of a frame first, if anything. */
  lemma StartsFirst(frames: seq<seq<byte>>, log: seq<Act>, lo: nat, hi: nat)
    requires lo <= hi <= |log| && !TxRun(frames, TX_INIT, log, lo, hi).pc.TxBad?
    ensures WritesIn(log, lo, hi) == [] ==> !TxRun(frames, TX_INIT, log, lo, hi).pc.TxDone?
    ensures WritesIn(log, lo, hi) != [] ==> WritesIn(log, lo, hi)[0] == START[0]
  {
    if lo < hi {
      var tx := TxStep(frames, TX_INIT, log[lo]);
      if tx.pc.TxBad? {
        StaysBad(frames, tx, log, lo + 1, hi);
      }
    }
  }

  lemma {:induction false} StaysBad(frames: seq<seq<byte>>, tx: Tx, log: seq<Act>, lo: nat, hi: nat)
    requires lo <= hi <= |log| && tx.pc.TxBad?
    ensures TxRun(frames, tx, log, lo, hi).pc.TxBad?
    decreases hi - lo
  {
    if lo < hi {
      StaysBad(frames, TxStep(frames, tx, log[lo]), log, lo + 1, hi);
    }
  }

  // ---------------------------------------------------------------- the sessions of the program

  function GotOf(t: Trace): (got: seq<bool>)
    ensures |got| == |t.legs| && forall k | 0 <= k < |got| :: got[k] == t.legs[k].received
  {
    seq(|t.legs|, k requires 0 <= k < |t.legs| => t.legs[k].received)
  }

  lemma TookIs(leg: Leg, rec: Record, b: Blocks, c: seq<Act>, lo: nat, hi: nat, e0: Spot, e1: Spot, f: seq<seq<byte>>,
               k: nat)
    requires TookChallenge(leg, rec, b, c, lo, hi, e0, e1) && leg.ok && k < 3 && leg.pattern == PatternOf(k)
    requires Message(f, PatternOf(k))
    ensures Sendable(f) && Took(Lengths(f), e0.input, e0, e1, leg.received) && e1.input == e0.input
  {
    hide FramesOf, Message, Shaped, ReceiverAfter, RxRun, Lengths, Blank, Owned, Copyable, Fit, Sendable,
      PatternOf;
    SameSizes(rec, b, f, PatternOf(k));
  }

  /** A message is as long as a record of its pattern, frame by frame. */
  lemma SameSizes(rec: Record, b: Blocks, f: seq<seq<byte>>, pattern: seq<byte>)
    requires Owned(rec.ps, b) && |pattern| == DATA_PORTIONS && Shaped(rec.ps, pattern) && Message(f, pattern)
    requires forall i | 0 <= i < |pattern| :: pattern[i] > 0
    ensures Lengths(RecFrames(rec, b)) == Lengths(f) && Sendable(f)
  {
    RecordIsMessage(rec, pattern, b);
    MessageLengths(RecFrames(rec, b), pattern);
    MessageLengths(f, pattern);
  }

  lemma AnsweredIs(rec: Record, b: Blocks, c: seq<Act>, lo: nat, hi: nat, sent: bool, e0: Spot, e1: Spot)
    requires GaveResponse(rec, b, c, lo, hi, sent, e0, e1)
    ensures Owned(rec.ps, b) && Replied(RecFrames(rec, b), e0.input, e0, e1, sent) && e1.input == e0.input
    ensures Sendable(RecFrames(rec, b))
  {
    AlwaysSendable(rec.func, rec.ps, b);
  }

  ghost predicate Messages(fs: seq<seq<seq<byte>>>) {
    |fs| == 3 && forall k: nat | k < 3 :: Message(fs[k], PatternOf(k))
  }

  ghost predicate LegPlayed(t: Trace, fs: seq<seq<seq<byte>>>, k: nat) {
    && k < 3 == |fs| == |t.legs| && |t.w| >= 4 && Sendable(fs[k])
    && Took(Lengths(fs[k]), t.w[0].input, t.w[k], t.w[k + 1], t.legs[k].received) && t.w[k + 1].input == t.w[0].input
  }

  lemma TakenPlays(t: Trace, c: seq<Act>, fs: seq<seq<seq<byte>>>)
    requires ThreeTaken(t, c) && AllAllocated(t) && Messages(fs)
    ensures LegPlayed(t, fs, 0) && LegPlayed(t, fs, 1) && LegPlayed(t, fs, 2)
  {
    assert PatternOf(0) == PATTERN_INIT_COMMIT && PatternOf(1) == PATTERN_INIT_COMMIT && PatternOf(2) == PATTERN_PROOFS;
    assert Message(fs[0], PatternOf(0)) && Message(fs[1], PatternOf(1)) && Message(fs[2], PatternOf(2));
    hide TookChallenge, Took, Message, PatternOf, Sendable, Lengths;
    TookIs(t.legs[0], t.one, t.at, c, t.m[0], t.m[1], t.w[0], t.w[1], fs[0], 0);
    TookIs(t.legs[1], t.two, t.at, c, t.m[1], t.m[2], t.w[1], t.w[2], fs[1], 1);
    TookIs(t.legs[2], t.three, t.at, c, t.m[2], t.m[3], t.w[2], t.w[3], fs[2], 2);
  }

  ghost predicate ReplyPlayed(t: Trace, gs: seq<seq<seq<byte>>>, k: nat) {
    && k < 3 == |gs| && |t.w| == 7 && Sendable(gs[k])
    && Response(gs[k], t.w[3].input, t.w[3 + k], t.w[4 + k], k, t.sent)
  }

  lemma GivenPlays(t: Trace, c: seq<Act>)
    requires ThreeGiven(t, c) && ThreeOwned(t, t.after)
    ensures var gs := Responses(t); ReplyPlayed(t, gs, 0) && ReplyPlayed(t, gs, 1) && ReplyPlayed(t, gs, 2)
  {
    hide GaveResponse, Replied, RecFrames, Owned, Sendable;
    RecordSendable(t.one, t.after);
    RecordSendable(t.two, t.after);
    RecordSendable(t.three, t.after);
    AnsweredIs(t.one, t.after, c, t.m[3], t.m[4], t.sent >= 1, t.w[3], t.w[4]);
    if t.sent >= 1 {
      AnsweredIs(t.two, t.after, c, t.m[4], t.m[5], t.sent >= 2, t.w[4], t.w[5]);
    }
    if t.sent >= 2 {
      AnsweredIs(t.three, t.after, c, t.m[5], t.m[6], t.sent == 3, t.w[5], t.w[6]);
    }
  }

  lemma AllPlayed(t: Trace, fs: seq<seq<seq<byte>>>, gs: seq<seq<seq<byte>>>)
    requires LegPlayed(t, fs, 0) && LegPlayed(t, fs, 1) && LegPlayed(t, fs, 2) && t.sent <= 3
    requires ReplyPlayed(t, gs, 0) && ReplyPlayed(t, gs, 1) && ReplyPlayed(t, gs, 2)
    ensures Played(fs, gs, t.w[0].input, t.w, GotOf(t), t.sent)
  {
    hide Took, Response, Sendable, Lengths;
    forall k: nat | k < 3
      ensures LegPlayed(t, fs, k) && ReplyPlayed(t, gs, k)
    {
    }
  }

  /** The six exchanges of a session that got all its buffers. */
  lemma SessionPlays(t: Trace, c: seq<Act>, fs: seq<seq<seq<byte>>>)
    requires ThreeTaken(t, c) && ThreeGiven(t, c) && AllAllocated(t) && ThreeOwned(t, t.after) && Messages(fs)
    ensures Played(fs, Responses(t), t.w[0].input, t.w, GotOf(t), t.sent)
    ensures AllGot(GotOf(t), 0) <==> AllReceived(t)
  {
    assert |t.w| == 7 && |t.legs| == 3 && t.sent <= 3;
    AllIsThree(t);
    hide *;
    TakenPlays(t, c, fs);
    GivenPlays(t, c);
    AllPlayed(t, fs, Responses(t));
  }

  lemma AllIsThree(t: Trace)
    requires |t.legs| == 3
    ensures AllGot(GotOf(t), 0) <==> AllReceived(t)
  {
    assert AllGot(GotOf(t), 0) ==> GotOf(t)[0] && GotOf(t)[1] && GotOf(t)[2];
  }

  lemma RecordSendable(rec: Record, b: Blocks)
    requires Owned(rec.ps, b)
    ensures Sendable(RecFrames(rec, b))
  {
    AlwaysSendable(rec.func, rec.ps, b);
  }

  /** A session whose input, as far as it was read, is what the server sends, with
      all its buffers: it receives every challenge if and only if no write of an
      acknowledgement fails, and then completes if and only if every write of a
      frame is taken whole. */
  lemma SessionCompletes(out: Outcome, t: Trace, c: seq<Act>, g: Guest, asked: bool, seen0: seq<seq<byte>>,
                         seen: seq<seq<byte>>, fs: seq<seq<seq<byte>>>)
    requires EnumSize(g.ct) && Told(out, t, c, g, asked, seen0, seen) && AllAllocated(t) && Messages(fs)
    requires ReadsOf(t.w[0].input, t.w[0].pos, t.w[6].pos, AllWires(fs, 0) + AllAcks(Responses(t), 0))
    ensures AllReceived(t) <==> NoFailure(t.w[0].evs, t.w[3].evs)
    ensures AllReceived(t) ==> (out == Completed <==> TakesAll(Responses(t), 0, t.w[3].evs))
  {
    assert |t.w| == 7;
    hide ThreeTaken, ThreeGiven, Challenged, Ready, Consumes, ReadsOf, Played, NoFailure, TakesAll, AllGot,
        AllReceived, Responses;
    SessionPlays(t, c, fs);
    UncutPlay(fs, Responses(t), t.w[0].input, t.w, GotOf(t), t.sent);
  }

  /** A session on a connection that is cut somewhere for good: the challenges
      received are the first ones, and no response is completed unless all of them
      were received, although the program goes on after each failure. */
  lemma SessionCut(out: Outcome, t: Trace, c: seq<Act>, g: Guest, asked: bool, seen0: seq<seq<byte>>,
                   seen: seq<seq<byte>>, fs: seq<seq<seq<byte>>>, more: seq<byte>, cut: nat)
    requires EnumSize(g.ct) && Told(out, t, c, g, asked, seen0, seen) && AllAllocated(t) && Messages(fs)
    requires Flowing(t.w[0].input, t.w[0], AllWires(fs, 0) + more, cut, 3)
    ensures (t.legs[2].received ==> t.legs[1].received) && (t.legs[1].received ==> t.legs[0].received)
    ensures t.sent > 0 ==> AllReceived(t)
  {
    assert |t.w| == 7;
    hide ThreeTaken, ThreeGiven, Challenged, Ready, Consumes, Flowing, Played, AllGot, AllReceived, Responses;
    SessionPlays(t, c, fs);
    CutPlay(fs, Responses(t), t.w[0].input, t.w, GotOf(t), t.sent, more, cut);
  }

  ghost function LastStates(t: Trace, c: seq<Act>): (rs: seq<Rx>)
    requires ThreeTaken(t, c)
    ensures |rs| == 3
  {
    [Heard(t.one, t.at, c, t.m[0], t.m[1]), Heard(t.two, t.at, c, t.m[1], t.m[2]),
        Heard(t.three, t.at, c, t.m[2], t.m[3])]
  }

  lemma LegIs(leg: Leg, rec: Record, b: Blocks, c: seq<Act>, lo: nat, hi: nat, e0: Spot, e1: Spot, f: seq<seq<byte>>,
              k: nat)
    requires TookChallenge(leg, rec, b, c, lo, hi, e0, e1) && leg.ok && k < 3 && leg.pattern == PatternOf(k)
    requires Message(f, PatternOf(k))
    ensures OneLeg(f, e0.input, e0, e1, c, lo, hi, Heard(rec, b, c, lo, hi)) && e1.input == e0.input
  {
    hide FramesOf, Message, Shaped, ReceiverAfter, RxRun, RxEnded, Lengths, Blank, Owned, Copyable, Fit, Sendable,
      PatternOf;
    SameSizes(rec, b, f, PatternOf(k));
  }

  lemma SessionLegs(t: Trace, c: seq<Act>, fs: seq<seq<seq<byte>>>)
    requires ThreeTaken(t, c) && AllAllocated(t) && Messages(fs)
    ensures Legs(fs, t.w[0].input, t.w, c, t.m, LastStates(t, c))
  {
    assert PatternOf(0) == PATTERN_INIT_COMMIT && PatternOf(1) == PATTERN_INIT_COMMIT && PatternOf(2) == PATTERN_PROOFS;
    assert Message(fs[0], PatternOf(0)) && Message(fs[1], PatternOf(1)) && Message(fs[2], PatternOf(2));
    LegPlaces(t, c);
    hide TookChallenge, Message, PatternOf, Heard, OneLeg;
    LegIs(t.legs[0], t.one, t.at, c, t.m[0], t.m[1], t.w[0], t.w[1], fs[0], 0);
    LegIs(t.legs[1], t.two, t.at, c, t.m[1], t.m[2], t.w[1], t.w[2], fs[1], 1);
    LegIs(t.legs[2], t.three, t.at, c, t.m[2], t.m[3], t.w[2], t.w[3], fs[2], 2);
  }

  lemma LegPlaces(t: Trace, c: seq<Act>)
    requires ThreeTaken(t, c)
    ensures Cuts(c, t.m, 0, 3)
  {
    hide TookChallenge;
    TookPlaces(t.legs[0], t.one, t.at, c, t.m[0], t.m[1], t.w[0], t.w[1]);
    TookPlaces(t.legs[1], t.two, t.at, c, t.m[1], t.m[2], t.w[1], t.w[2]);
    TookPlaces(t.legs[2], t.three, t.at, c, t.m[2], t.m[3], t.w[2], t.w[3]);
  }

  lemma TookPlaces(leg: Leg, rec: Record, b: Blocks, c: seq<Act>, lo: nat, hi: nat, e0: Spot, e1: Spot)
    requires TookChallenge(leg, rec, b, c, lo, hi, e0, e1)
    ensures lo <= hi <= |c|
  {
  }

  lemma OneResponse(rec: Record, b: Blocks, c: seq<Act>, lo: nat, hi: nat, sent: bool, e0: Spot, e1: Spot)
    requires GaveResponse(rec, b, c, lo, hi, sent, e0, e1)
    ensures lo <= hi <= |c| && (WritesIn(c, lo, hi) == [] ==> !sent)
    ensures WritesIn(c, lo, hi) != [] ==> WritesIn(c, lo, hi)[0] == START[0]
  {
    StartsFirst(RecFrames(rec, b), c, lo, hi);
  }

  lemma ResponsesBegin(t: Trace, c: seq<Act>)
    requires ThreeGiven(t, c)
    ensures t.m[3] <= t.m[6] <= |c| && (WritesIn(c, t.m[3], t.m[6]) == [] || WritesIn(c, t.m[3], t.m[6])[0] == START[0])
  {
    hide GaveResponse, WritesIn;
    OneResponse(t.one, t.after, c, t.m[3], t.m[4], t.sent >= 1, t.w[3], t.w[4]);
    if t.sent >= 1 {
      OneResponse(t.two, t.after, c, t.m[4], t.m[5], t.sent >= 2, t.w[4], t.w[5]);
    }
    if t.sent >= 2 {
      OneResponse(t.three, t.after, c, t.m[5], t.m[6], t.sent == 3, t.w[5], t.w[6]);
    }
    WritesSplit(c, t.m[3], t.m[4], t.m[6]);
    NothingWritten(c, t.m[4]);
  }

  lemma NothingWritten(c: seq<Act>, n: nat)
    requires n <= |c|
    ensures WritesIn(c, n, n) == []
  {
  }

  /** Agreement over the whole session, wherever the connection is cut: what the
      client has stored are the first of the server's frames, and each of them came
      whole; whoever reads r acknowledgements from the client, it has stored at
      least r frames; and it has acknowledged all that it stored. */
  lemma SessionAgrees(out: Outcome, t: Trace, c: seq<Act>, g: Guest, asked: bool, seen0: seq<seq<byte>>,
                      seen: seq<seq<byte>>, fs: seq<seq<seq<byte>>>, more: seq<byte>, cut: nat, r: nat)
    requires EnumSize(g.ct) && Told(out, t, c, g, asked, seen0, seen) && AllAllocated(t) && Messages(fs)
    requires Flowing(t.w[0].input, t.w[0], AllWires(fs, 0) + more, cut, 3)
    ensures t.m[0] <= t.m[3] <= t.m[6] <= |c| && Agreed(fs, LastStates(t, c), 0, cut, WritesIn(c, t.m[0], t.m[3]))
    ensures Acks(r) <= WritesIn(c, t.m[0], t.m[6]) ==> r <= FramesStored(LastStates(t, c), 0)
  {
    assert |t.w| == |t.m| == 7 && ThreeGiven(t, c);
    SessionLegs(t, c, fs);
    ResponsesBegin(t, c);
    var rs, a := LastStates(t, c), WritesIn(c, t.m[3], t.m[6]);
    hide ThreeTaken, ThreeGiven, Challenged, Ready, Consumes, Flowing, Legs, LastStates, WritesIn, Acks;
    AgreeFrom(fs, t.w[0].input, t.w, c, t.m, rs, 0, more, cut);
    WritesSplit(c, t.m[0], t.m[3], t.m[6]);
    if Acks(r) <= WritesIn(c, t.m[0], t.m[6]) {
      AcksCounted(r, FramesStored(rs, 0), WritesIn(c, t.m[0], t.m[3]), a);
    }
  }
}
