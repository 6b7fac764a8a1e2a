/** What one call of the receiver makes of an arbitrary input. */
module Reception {
  import opened Bytes
  import opened Channel
  import opened Framing

  /** The bytes that arrive before the connection first reports its end. */
  function Lead(ts: seq<Tok>): (d: seq<byte>)
    ensures |d| <= |ts|
  {
    if ts == [] || ts[0].Break? then [] else [ts[0].b] + Lead(ts[1..])
  }

  lemma {:induction false} LeadShape(ts: seq<Tok>)
    ensures HoldsAt(ts, 0, Lead(ts)) && At(ts, |Lead(ts)|) == Break
  {
    if ts != [] && ts[0].Byte? {
      LeadShape(ts[1..]);
      forall i: nat | i < |Lead(ts)|
        ensures At(ts, i) == Byte(Lead(ts)[i])
      {
        if i > 0 {
          assert At(ts[1..], i - 1) == At(ts, i);
        }
      }
      assert At(ts[1..], |Lead(ts[1..])|) == At(ts, |Lead(ts)|);
    }
  }

  lemma {:induction false} LeadAppend(d: seq<byte>, ts: seq<Tok>)
    ensures Lead(Toks(d) + ts) == d + Lead(ts)
  {
    var all := Toks(d) + ts;
    if d == [] {
      assert all == ts;
    } else {
      assert all[0] == Byte(d[0]) && all[1..] == Toks(d[1..]) + ts;
      LeadAppend(d[1..], ts);
    }
  }

  lemma HoldsSlice(ts: seq<Tok>, o: nat, s: seq<byte>, a: nat, b: nat)
    requires HoldsAt(ts, o, s) && a <= b <= |s|
    ensures HoldsAt(ts, o + a, s[a..b])
  {
  }

  /** A complete frame of the given payload length starts at p, and no start
      sequence occurs before p. */
  ghost predicate FrameAt(s: seq<byte>, p: nat, len: nat) {
    FirstStart(s, p) && p + len + 8 <= |s| && s[p + 4 + len..p + 8 + len] == STOP
  }

  /** The bytes that arrive after the first report of the end. */
  function Second(ts: seq<Tok>): seq<byte> {
    Lead(Drop(ts, |Lead(ts)| + 1))
  }

  /** The input breaks inside the payload and then delivers the stop sequence. */
  ghost predicate BrokenFrameAt(ts: seq<Tok>, p: nat, len: nat) {
    FirstStart(Lead(ts), p) && |Lead(ts)| < p + 4 + len && |Second(ts)| >= 4 && Second(ts)[..4] == STOP
  }

  ghost predicate HasFrame(s: seq<byte>, len: nat) {
    exists p: nat :: FrameAt(s, p, len)
  }

  ghost predicate HasBrokenFrame(ts: seq<Tok>, len: nat) {
    exists p: nat :: BrokenFrameAt(ts, p, len)
  }

  /** A close or fatal error that is followed by nothing else. */
  ghost predicate Permanent(ts: seq<Tok>) {
    forall i: nat | |Lead(ts)| <= i :: At(ts, i) == Break
  }

  lemma FirstStartUnique(s: seq<byte>, p: nat, q: nat)
    requires FirstStart(s, p) && FirstStart(s, q)
    ensures p == q
  {
    assert StartsAt(s, p) && StartsAt(s, q);
  }

  lemma {:induction false} FindFirst(s: seq<byte>, q: nat) returns (p: nat)
    requires StartsAt(s, q)
    ensures FirstStart(s, p)
    decreases q
  {
    if r: nat :| r < q && StartsAt(s, r) {
      p := FindFirst(s, r);
    } else {
      p := q;
    }
  }

  /** When a start sequence is there, the input goes on to the end of the stop
      sequence, ... */
  lemma WholeFrame(ts: seq<Tok>, s: seq<byte>, p: nat, buf: seq<byte>, len: nat)
    requires len <= |buf| && HoldsAt(ts, 0, s) && FirstStart(s, p) && p + len + 8 <= |s|
    ensures Drive(Init(buf), len, ts, 0)
         == Ran(Rec(Verdict(s[p + 4 + len..p + 8 + len]), Filled(buf, s[p + 4..p + 4 + len])), p + 8 + len)
  {
    HuntFinds(ts, s, p, buf, len);
    HoldsSlice(ts, 0, s, p + 4, p + 4 + len);
    MatchedRun(ts, p + 4, s[p + 4..p + 4 + len], buf, len);
    HoldsSlice(ts, 0, s, p + 4 + len, p + 8 + len);
    StopFromStart(ts, p + 4 + len, s[p + 4 + len..p + 8 + len], Filled(buf, s[p + 4..p + 4 + len]), len);
  }

  /** ... or breaks in the stop sequence, ... */
  lemma CutInStop(ts: seq<Tok>, s: seq<byte>, p: nat, buf: seq<byte>, len: nat)
    requires len <= |buf| && HoldsAt(ts, 0, s) && At(ts, |s|) == Break
    requires FirstStart(s, p) && p + len + 4 <= |s| < p + len + 8
    ensures Drive(Init(buf), len, ts, 0) == Ran(Rec(Rejected, Filled(buf, s[p + 4..p + 4 + len])), |s| + 1)
  {
    HuntFinds(ts, s, p, buf, len);
    HoldsSlice(ts, 0, s, p + 4, p + 4 + len);
    MatchedRun(ts, p + 4, s[p + 4..p + 4 + len], buf, len);
    HoldsSlice(ts, 0, s, p + 4 + len, |s|);
    StopFromStart(ts, p + 4 + len, s[p + 4 + len..|s|], Filled(buf, s[p + 4..p + 4 + len]), len);
  }

  /** ... or breaks in the payload, and the stop sequence is read after the break. */
  lemma CutInPayload(ts: seq<Tok>, s: seq<byte>, p: nat, buf: seq<byte>, len: nat)
    requires len <= |buf| && HoldsAt(ts, 0, s) && At(ts, |s|) == Break
    requires FirstStart(s, p) && |s| < p + len + 4
    ensures Drive(Init(buf), len, ts, 0)
         == Drive(Rec(Stop(0, START), Filled(buf, s[p + 4..|s|])), len, ts, |s| + 1)
  {
    HuntFinds(ts, s, p, buf, len);
    HoldsSlice(ts, 0, s, p + 4, |s|);
    var o, d := p + 4, s[p + 4..|s|];
    var end := o + |d|;
    assert end == |s| && 0 + o == o;
    hide *;
    MatchedRun(ts, o, d, buf, len);
  }

  /** What a stop sequence read after the break amounts to. */
  lemma StopAfterBreak(ts: seq<Tok>, buf: seq<byte>, len: nat)
    requires len <= |buf|
    ensures var r := Drive(Rec(Stop(0, START), buf), len, ts, |Lead(ts)| + 1);
      r.st.buf == buf && (r.st.ph.Accepted? <==> |Second(ts)| >= 4 && Second(ts)[..4] == STOP)
  {
    var o, us := |Lead(ts)| + 1, Drop(ts, |Lead(ts)| + 1);
    var t := Lead(us);
    LeadShape(us);
    var d := if |t| < 4 then t else t[..4];
    forall i: nat | o <= i < o + |d|
      ensures At(ts, i) == Byte(d[i - o])
    {
      assert At(us, i - o) == Byte(t[i - o]);
    }
    assert |d| < 4 ==> At(us, |t|) == Break == At(ts, o + |d|);
    StopFromStart(ts, o, d, buf, len);
  }

  /** The verdict in all three cases. */
  lemma FromFirst(ts: seq<Tok>, p: nat, buf: seq<byte>, len: nat)
    requires len <= |buf| && FirstStart(Lead(ts), p)
    ensures Drive(Init(buf), len, ts, 0).st.ph.Accepted? <==> FrameAt(Lead(ts), p, len) || BrokenFrameAt(ts, p, len)
  {
    var s := Lead(ts);
    LeadShape(ts);
    if p + len + 8 <= |s| {
      WholeFrame(ts, s, p, buf, len);
    } else if p + len + 4 <= |s| {
      CutInStop(ts, s, p, buf, len);
    } else {
      CutInPayload(ts, s, p, buf, len);
      StopAfterBreak(ts, Filled(buf, s[p + 4..|s|]), len);
    }
  }

  /** Exactly which inputs are accepted, for any behaviour of the connection. */
  lemma AcceptedExactly(ts: seq<Tok>, buf: seq<byte>, len: nat)
    requires len <= |buf|
    ensures Drive(Init(buf), len, ts, 0).st.ph.Accepted? <==> HasFrame(Lead(ts), len) || HasBrokenFrame(ts, len)
  {
    var s := Lead(ts);
    if q: nat :| StartsAt(s, q) {
      var p := FindFirst(s, q);
      FromFirst(ts, p, buf, len);
      forall q: nat | FirstStart(s, q)
        ensures q == p
      {
        FirstStartUnique(s, p, q);
      }
    } else {
      LeadShape(ts);
      HuntFails(ts, s, buf, len);
    }
  }

  /** An accepted payload is whole exactly when no break was met on the way. */
  lemma WholePayloadExactly(ts: seq<Tok>, buf: seq<byte>, len: nat)
    requires len <= |buf| && Drive(Init(buf), len, ts, 0).st.ph.Accepted?
    ensures HasFrame(Lead(ts), len) <==> !HasBrokenFrame(ts, len)
    ensures HasFrame(Lead(ts), len) <==> Drive(Init(buf), len, ts, 0).n <= |Lead(ts)|
  {
    AcceptedExactly(ts, buf, len);
    LeadShape(ts);
    var s := Lead(ts);
    if p: nat :| FrameAt(s, p, len) {
      WholeFrame(ts, s, p, buf, len);
      forall q: nat
        ensures !BrokenFrameAt(ts, q, len)
      {
        if FirstStart(s, q) {
          FirstStartUnique(s, p, q);
        }
      }
    } else {
      var p: nat :| BrokenFrameAt(ts, p, len);
      CutInPayload(ts, s, p, buf, len);
    }
  }

  /** s has its first frame at p, and that is what the receiver returns. */
  ghost predicate Returns(r: Ran, ts: seq<Tok>, buf: seq<byte>, s: seq<byte>, p: nat, len: nat)
    requires len <= |buf|
  {
    && FrameAt(s, p, len)
    && Take(ts, r.n) == Toks(s[..p] + Wire(s[p + 4..p + 4 + len]))
    && r.st.buf == Filled(buf, s[p + 4..p + 4 + len])
  }

  lemma FrameReturned(ts: seq<Tok>, buf: seq<byte>, p: nat, len: nat)
    requires len <= |buf| && FrameAt(Lead(ts), p, len)
    ensures Returns(Drive(Init(buf), len, ts, 0), ts, buf, Lead(ts), p, len)
  {
    var s := Lead(ts);
    LeadShape(ts);
    WholeFrame(ts, s, p, buf, len);
    FrameShape(s, p, len);
    TakeHeld(ts, s, p + 8 + len);
  }

  /** With a permanent end, acceptance means a whole frame, and all of it. */
  lemma ReceiveSound(ts: seq<Tok>, buf: seq<byte>, len: nat)
    requires len <= |buf| && Permanent(ts)
    ensures var r, s := Drive(Init(buf), len, ts, 0), Lead(ts);
      && (r.st.ph.Accepted? <==> HasFrame(s, len))
      && (r.st.ph.Accepted? ==> exists p: nat :: Returns(r, ts, buf, s, p, len))
  {
    AcceptedExactly(ts, buf, len);
    assert Second(ts) == [] by {
      var us := Drop(ts, |Lead(ts)| + 1);
      assert us != [] ==> us[0] == At(us, 0) == At(ts, |Lead(ts)| + 1);
    }
    assert !HasBrokenFrame(ts, len);
    if p: nat :| FrameAt(Lead(ts), p, len) {
      FrameReturned(ts, buf, p, len);
    }
  }

  lemma FrameShape(s: seq<byte>, p: nat, len: nat)
    requires FrameAt(s, p, len)
    ensures s[..p + 8 + len] == s[..p] + Wire(s[p + 4..p + 4 + len])
  {
    var a, b, c := s[p..p + 4], s[p + 4..p + 4 + len], s[p + 4 + len..p + 8 + len];
    assert s[..p + 8 + len] == s[..p] + (a + b + c);
  }

  lemma TakeHeld(ts: seq<Tok>, s: seq<byte>, n: nat)
    requires HoldsAt(ts, 0, s) && n <= |s|
    ensures Take(ts, n) == Toks(s[..n])
  {
  }

  /** Without permanence the receiver can accept a frame whose payload never
      arrived: the connection breaks after START and then delivers STOP. */
  lemma TransientBreakAccepted()
    ensures var ts, buf := Toks(START) + [Break] + Toks(STOP), [0x00];
      var r := Drive(Init(buf), 1, ts, 0);
      r.st.ph.Accepted? && r.st.buf == buf && !Permanent(ts)
  {
    var ts, buf := Toks(START) + [Break] + Toks(STOP), [0x00];
    assert HoldsAt(ts, 0, START) && At(ts, 4) == Break;
    assert StartsAt(START, 0);
    CutInPayload(ts, START, 0, buf, 1);
    assert HoldsAt(ts, 5, STOP);
    StopFromStart(ts, 5, STOP, Filled(buf, START[4..4]), 1);
    assert ts == Toks(START) + ([Break] + Toks(STOP));
    LeadAppend(START, [Break] + Toks(STOP));
    assert At(ts, 5) == Byte(0xFF);
  }

  // ---------------------------------------------------------------- resynchronisation

  /** s ends in exactly k bytes 0x55. */
  predicate EndsIn55(s: seq<byte>, k: nat) {
    && k <= |s|
    && s[|s| - k..] == Rep(0x55, k)
    && (k < |s| ==> s[|s| - k - 1] != 0x55)
  }

  lemma Tail55(noise: seq<byte>, k: nat, i: nat)
    requires EndsIn55(noise, k) && |noise| - k <= i < |noise|
    ensures noise[i] == 0x55
  {
    assert noise[|noise| - k..][i - (|noise| - k)] == Rep(0x55, k)[i - (|noise| - k)];
  }

  /** No start sequence begins before the last k bytes of the noise. */
  lemma NoEarlier(noise: seq<byte>, k: nat, s: seq<byte>, q: nat)
    requires NoStart(noise) && EndsIn55(noise, k) && k <= 3 && noise <= s && q < |noise| - k
    ensures !StartsAt(s, q)
  {
    var n := |noise|;
    if q + 4 <= n {
      assert noise[q..q + 4] == s[q..q + 4];
      assert !StartsAt(noise, q);
    } else if q + 4 <= |s| {
      assert s[q..q + 4][n - k - 1 - q] == s[n - k - 1] == noise[n - k - 1];
    }
  }

  /** The first start sequence of noise followed by a frame begins k bytes early. */
  lemma NoiseThenStart(noise: seq<byte>, k: nat, tail: seq<byte>)
    requires NoStart(noise) && EndsIn55(noise, k) && k <= 3
    ensures FirstStart(noise + START + tail, |noise| - k)
  {
    var s, p := noise + START + tail, |noise| - k;
    var w := s[p..p + 4];
    forall i | 0 <= i < 4
      ensures w[i] == 0x55
    {
      assert w[i] == s[p + i];
      if i < k {
        Tail55(noise, k, p + i);
      } else {
        assert s[p + i] == START[i - k];
      }
    }
    assert w == START;
    forall q: nat | q < p
      ensures !StartsAt(s, q)
    {
      NoEarlier(noise, k, s, q);
    }
  }

  /** Noise followed by a frame, cut after the start sequence. */
  lemma WireSplit(noise: seq<byte>, payload: seq<byte>)
    ensures noise + Wire(payload) == noise + START + (payload + STOP)
  {
    assert Wire(payload) == START + (payload + STOP);
  }

  /** The bytes after the first start sequence. */
  lemma AfterNoise(s: seq<byte>, noise: seq<byte>, k: nat, body: seq<byte>)
    requires EndsIn55(noise, k) && k <= 3 && s == noise + START + body
    ensures s[|noise| - k + 4..] == Rep(0x55, k) + body
  {
    var n := |noise|;
    assert forall i :: n - k <= i < n ==> noise[i] == noise[n - k..][i - (n - k)];
    assert (noise + START)[n - k + 4..] == Rep(0x55, k);
    assert s[n - k + 4..] == (noise + START)[n - k + 4..] + body;
  }

  /** The four bytes taken for the stop sequence are the last k of the payload
      and all but the last k of STOP. */
  lemma WindowIs(k: nat, payload: seq<byte>, w: seq<byte>)
    requires k <= 3 && k <= |payload| && w == (Rep(0x55, k) + payload + STOP)[|payload|..|payload| + 4]
    ensures w == payload[|payload| - k..] + STOP[..4 - k]
  {
  }

  lemma StopWindow(k: nat, payload: seq<byte>)
    requires k <= 3
    ensures var len := |payload|;
      (Rep(0x55, k) + payload + STOP)[len..len + 4] == STOP <==> k <= len && payload[len - k..] == Rep(0xFF, k)
  {
    var len := |payload|;
    var w := (Rep(0x55, k) + payload + STOP)[len..len + 4];
    if k <= len {
      WindowIs(k, payload, w);
      var e := payload[len - k..];
      assert STOP == Rep(0xFF, 4) && STOP[..4 - k] == Rep(0xFF, 4 - k);
      if e == Rep(0xFF, k) {
        assert w == STOP;
      }
      if w == STOP {
        assert e == w[..k] == Rep(0xFF, k);
      }
    } else {
      assert w[0] == 0x55;
    }
  }

  lemma Slices<T>(s: seq<T>, a: nat, b: nat, c: nat)
    requires a <= |s| && b <= c <= |s| - a
    ensures s[a..][b..c] == s[a + b..a + c]
  {
  }

  lemma BodyEnds(k: nat, payload: seq<byte>)
    requires k <= 3
    ensures var body, len := Rep(0x55, k) + (payload + STOP), |payload|;
      && body[len + 4..len + 4 + k] == Rep(0xFF, k)
      && body[0..len] == (Rep(0x55, k) + payload)[..len]
      && body[len..len + 4] == (Rep(0x55, k) + payload + STOP)[len..len + 4]
  {
    assert Rep(0x55, k) + (payload + STOP) == Rep(0x55, k) + payload + STOP;
  }

  lemma SplitTail<T>(s: seq<T>, n: nat, t: seq<T>)
    requires n <= |s|
    ensures s + t == s[..n] + (s[n..] + t)
  {
    assert s == s[..n] + s[n..];
  }

  lemma AfterMatch(s: seq<byte>, q: nat, k: nat, payload: seq<byte>)
    requires k <= 3 && q <= |s| && s[q..] == Rep(0x55, k) + (payload + STOP)
    ensures var len := |payload|;
      && |s| == q + len + 4 + k
      && s[q..q + len] == (Rep(0x55, k) + payload)[..len]
      && s[q + len..q + 4 + len] == (Rep(0x55, k) + payload + STOP)[len..len + 4]
      && s[q + 4 + len..] == Rep(0xFF, k)
  {
    var len := |payload|;
    Slices(s, q, 0, len);
    Slices(s, q, len, len + 4);
    Slices(s, q, len + 4, len + 4 + k);
    BodyEnds(k, payload);
  }

  lemma NoisyFrame(s: seq<byte>, p: nat, noise: seq<byte>, k: nat, payload: seq<byte>, body: seq<byte>)
    requires NoStart(noise) && EndsIn55(noise, k) && k <= 3
    requires s == noise + START + body && body == payload + STOP && p == |noise| - k
    ensures var len := |payload|;
      && FirstStart(s, p)
      && |s| == p + 4 + len + 4 + k
      && s[p + 4..p + 4 + len] == (Rep(0x55, k) + payload)[..len]
      && s[p + 4 + len..p + 8 + len] == (Rep(0x55, k) + payload + STOP)[len..len + 4]
      && s[p + 8 + len..] == Rep(0xFF, k)
  {
    NoiseThenStart(noise, k, body);
    AfterNoise(s, noise, k, body);
    AfterMatch(s, p + 4, k, payload);
  }

  /** The outcome for a frame that follows noise ending in k bytes 0x55. In
      either outcome exactly k bytes 0xFF of the frame are left unread. */
  lemma Resynchronises(ts: seq<Tok>, s: seq<byte>, noise: seq<byte>, k: nat, payload: seq<byte>, buf: seq<byte>)
    requires NoStart(noise) && EndsIn55(noise, k) && k <= 3 && |payload| <= |buf|
    requires s == noise + Wire(payload) && HoldsAt(ts, 0, s)
    ensures var len := |payload|;
      var r := Drive(Init(buf), len, ts, 0);
      && r.st.buf == Filled(buf, (Rep(0x55, k) + payload)[..len])
      && (r.st.ph.Accepted? <==> k <= len && payload[len - k..] == Rep(0xFF, k))
      && r.n == |s| - k
      && s[r.n..] == Rep(0xFF, k)
  {
    var p := |noise| - k;
    WireSplit(noise, payload);
    NoisyFrame(s, p, noise, k, payload, payload + STOP);
    WholeFrame(ts, s, p, buf, |payload|);
    StopWindow(k, payload);
  }

  lemma NoShift(payload: seq<byte>)
    ensures (Rep(0x55, 0) + payload)[..|payload|] == payload
    ensures payload[|payload|..] == Rep(0xFF, 0)
    ensures Rep(0x55, 0) == []
  {
  }

  /** A frame that follows no noise: every payload comes back, whatever it
      contains, and not one byte beyond the frame is consumed. */
  lemma FrameTransparent(ts: seq<Tok>, payload: seq<byte>, buf: seq<byte>)
    requires |payload| <= |buf| && HoldsAt(ts, 0, Wire(payload))
    ensures Drive(Init(buf), |payload|, ts, 0) == Ran(Rec(Accepted, Filled(buf, payload)), |payload| + 8)
  {
    assert [] + Wire(payload) == Wire(payload);
    NoShift(payload);
    Resynchronises(ts, Wire(payload), [], 0, payload, buf);
  }

  function Wires(frames: seq<seq<byte>>): seq<byte> {
    if frames == [] then [] else Wire(frames[0]) + Wires(frames[1..])
  }

  function Lengths(frames: seq<seq<byte>>): (lens: seq<nat>)
    ensures |lens| == |frames| && forall i :: 0 <= i < |frames| ==> lens[i] == |frames[i]|
  {
    seq(|frames|, i requires 0 <= i < |frames| => |frames[i]|)
  }

  /** What successive calls with one buffer return, payload after payload. */
  function ReceiveAll(lens: seq<nat>, buf: seq<byte>, ts: seq<Tok>): seq<seq<byte>>
    requires forall i :: 0 <= i < |lens| ==> lens[i] <= |buf|
  {
    if lens == [] then []
    else
      var r := Drive(Init(buf), lens[0], ts, 0);
      (if r.st.ph.Accepted? then [r.st.buf[..lens[0]]] else []) + ReceiveAll(lens[1..], r.st.buf, Drop(ts, r.n))
  }

  lemma HoldsAppend(ts: seq<Tok>, a: seq<byte>, b: seq<byte>)
    requires HoldsAt(ts, 0, a + b)
    ensures HoldsAt(ts, 0, a) && HoldsAt(Drop(ts, |a|), 0, b)
  {
    forall i: nat | i < |a|
      ensures At(ts, i) == Byte(a[i])
    {
      assert At(ts, i) == Byte((a + b)[i]);
    }
    forall i: nat | i < |b|
      ensures At(Drop(ts, |a|), i) == Byte(b[i])
    {
      assert At(ts, |a| + i) == Byte((a + b)[|a| + i]);
    }
  }

  /** Any list of frames comes back frame by frame. */
  lemma {:induction false} FramesRoundTrip(ts: seq<Tok>, frames: seq<seq<byte>>, buf: seq<byte>)
    requires HoldsAt(ts, 0, Wires(frames))
    requires forall i :: 0 <= i < |frames| ==> |frames[i]| <= |buf|
    ensures ReceiveAll(Lengths(frames), buf, ts) == frames
    decreases frames
  {
    if frames != [] {
      var f, more := frames[0], frames[1..];
      HoldsAppend(ts, Wire(f), Wires(more));
      FrameTransparent(ts, f, buf);
      FramesRoundTrip(Drop(ts, |f| + 8), more, Filled(buf, f));
      assert Lengths(frames)[1..] == Lengths(more);
      assert Filled(buf, f)[..|f|] == f;
      assert ReceiveAll(Lengths(frames), buf, ts) == [f] + more;
    }
  }

  lemma NoStartIn(s: seq<byte>)
    requires 0x55 !in s
    ensures NoStart(s)
  {
    forall q: nat
      ensures !StartsAt(s, q)
    {
      if q + 4 <= |s| {
        assert s[q..q + 4][0] == s[q];
      }
    }
  }

  lemma HoldsRest(ts: seq<Tok>, s: seq<byte>, n: nat, w: seq<byte>)
    requires HoldsAt(ts, 0, s + w) && n <= |s|
    ensures HoldsAt(Drop(ts, n), 0, s[n..] + w)
  {
    SplitTail(s, n, w);
    HoldsAppend(ts, s[..n], s[n..] + w);
  }

  lemma AfterStopBytes(ts: seq<Tok>, left: seq<byte>, k: nat, w: seq<byte>, next: seq<byte>, buf: seq<byte>)
    requires |next| <= |buf| && left == Rep(0xFF, k) && w == Wire(next) && HoldsAt(ts, 0, left + w)
    ensures Drive(Init(buf), |next|, ts, 0) == Ran(Rec(Accepted, Filled(buf, next)), k + |next| + 8)
  {
    NoStartIn(left);
    assert left[k..] == [];
    NoShift(next);
    Resynchronises(ts, left + w, left, 0, next, buf);
  }

  /** After either outcome of a resynchronisation, the next frame is received. */
  lemma NextFrameAfterResync(ts: seq<Tok>, s: seq<byte>, noise: seq<byte>, k: nat, payload: seq<byte>,
                             w: seq<byte>, next: seq<byte>, buf: seq<byte>, buf': seq<byte>)
    requires NoStart(noise) && EndsIn55(noise, k) && k <= 3
    requires |payload| <= |buf| && |next| <= |buf'|
    requires s == noise + Wire(payload) && w == Wire(next) && HoldsAt(ts, 0, s + w)
    ensures var us := Drop(ts, Drive(Init(buf), |payload|, ts, 0).n);
      Drive(Init(buf'), |next|, us, 0) == Ran(Rec(Accepted, Filled(buf', next)), k + |next| + 8)
  {
    HoldsAppend(ts, s, w);
    Resynchronises(ts, s, noise, k, payload, buf);
    var n := Drive(Init(buf), |payload|, ts, 0).n;
    HoldsRest(ts, s, n, w);
    AfterStopBytes(Drop(ts, n), s[n..], k, w, next, buf');
  }
}
