/** The frame format and the automaton that `recStream` runs over its input:
    hunt for the start sequence with a sliding window, take an exact number of
    payload bytes, compare the stop sequence. */
module Framing {
  import opened Bytes
  import opened Channel

  const START: seq<byte> := [0x55, 0x55, 0x55, 0x55]
  const STOP: seq<byte> := [0xFF, 0xFF, 0xFF, 0xFF]

  function Wire(payload: seq<byte>): (w: seq<byte>)
    ensures |w| == |payload| + 8
  {
    START + payload + STOP
  }

  /** Where the receiver stands. `Hunt` holds the bytes of the window seen so
      far, `Stop` the comparison buffer, which the stop sequence overwrites. */
  datatype Phase =
    | Hunt(win: seq<byte>)
    | Pay(got: nat)
    | Stop(have: nat, seqBuf: seq<byte>)
    | Accepted
    | Rejected
  {
    predicate Final() {
      Accepted? || Rejected?
    }

    predicate Ok(len: nat) {
      match this
      case Hunt(win) => |win| <= 3
      case Pay(got) => got < len
      case Stop(have, sb) => have < 4 && |sb| == 4
      case _ => true
    }

    /** Bound on the steps left once the input is exhausted. */
    function Rank(): nat {
      match this
      case Hunt(_) => 3
      case Pay(_) => 2
      case Stop(_, _) => 1
      case _ => 0
    }
  }

  datatype Rec = Rec(ph: Phase, buf: seq<byte>) {
    predicate Ok(len: nat) {
      ph.Ok(len) && len <= |buf|
    }
  }

  function Init(buf: seq<byte>): Rec {
    Rec(Hunt([]), buf)
  }

  /** The start sequence has been found. */
  function Matched(buf: seq<byte>, len: nat): Rec {
    Rec(if len == 0 then Stop(0, START) else Pay(0), buf)
  }

  function Verdict(seqBuf: seq<byte>): Phase {
    if seqBuf == STOP then Accepted else Rejected
  }

  /** One input token. A break in the payload is not noticed: the receiver goes
      on to the stop sequence, with the start sequence still in its buffer. */
  function Step(st: Rec, len: nat, tok: Tok): (st': Rec)
    requires st.Ok(len) && !st.ph.Final()
    ensures st'.Ok(len) && |st'.buf| == |st.buf|
    ensures tok.Break? ==> st'.ph.Rank() < st.ph.Rank()
  {
    match (st.ph, tok)
    case (Hunt(win), Byte(b)) =>
      var w := win + [b];
      if |w| < 4 then st.(ph := Hunt(w))
      else if w != START then st.(ph := Hunt(w[1..]))
      else Matched(st.buf, len)
    case (Hunt(win), Break) => st.(ph := Rejected)
    case (Pay(k), Byte(b)) => Rec(if k + 1 == len then Stop(0, START) else Pay(k + 1), st.buf[k := b])
    case (Pay(k), Break) => st.(ph := Stop(0, START))
    case (Stop(k, sb), Byte(b)) => st.(ph := if k == 3 then Verdict(sb[k := b]) else Stop(k + 1, sb[k := b]))
    case (Stop(k, sb), Break) => st.(ph := Verdict(sb))
  }

  /** A finished run: the final state and the number of tokens read so far. */
  datatype Ran = Ran(st: Rec, n: nat)

  /** Run to the end, from state st after n tokens of ts. */
  function Drive(st: Rec, len: nat, ts: seq<Tok>, n: nat): (r: Ran)
    requires st.Ok(len)
    ensures r.st.Ok(len) && r.st.ph.Final() && |r.st.buf| == |st.buf| && n <= r.n
    decreases if n <= |ts| then |ts| - n else 0, st.ph.Rank()
  {
    if st.ph.Final() then Ran(st, n) else Drive(Step(st, len, At(ts, n)), len, ts, n + 1)
  }

  // ---------------------------------------------------------------- known bytes

  /** ts holds the bytes s at offset o. */
  ghost predicate HoldsAt(ts: seq<Tok>, o: nat, s: seq<byte>) {
    forall i: nat | o <= i < o + |s| :: At(ts, i) == Byte(s[i - o])
  }

  function Filled(buf: seq<byte>, d: seq<byte>): (r: seq<byte>)
    requires |d| <= |buf|
    ensures |r| == |buf|
  {
    d + buf[|d|..]
  }

  lemma FilledOne(buf: seq<byte>, s: seq<byte>, k: nat)
    requires k < |s| && k < |buf|
    ensures Filled(buf, s[..k])[k := s[k]] == Filled(buf, s[..k + 1])
  {
  }

  /** Payload bytes land in order, up to the end of the payload or the break. */
  lemma {:induction false} PayRun(ts: seq<Tok>, o: nat, s: seq<byte>, k: nat, buf: seq<byte>, len: nat)
    requires len <= |buf| && k < len && k <= |s| <= len && HoldsAt(ts, o, s)
    requires |s| < len ==> At(ts, o + |s|) == Break
    ensures Drive(Rec(Pay(k), Filled(buf, s[..k])), len, ts, o + k)
         == Drive(Rec(Stop(0, START), Filled(buf, s)), len, ts, if |s| < len then o + |s| + 1 else o + len)
    decreases len - k
  {
    if k == |s| {
      assert s[..k] == s;
    } else {
      assert At(ts, o + k) == Byte(s[k]);
      FilledOne(buf, s, k);
      if k + 1 < len {
        PayRun(ts, o, s, k + 1, buf, len);
      } else {
        assert s[..k + 1] == s;
      }
    }
  }

  /** From the start sequence to the stop sequence, over a payload s that is
      whole or cut short by a break. */
  lemma MatchedRun(ts: seq<Tok>, o: nat, s: seq<byte>, buf: seq<byte>, len: nat)
    requires len <= |buf| && |s| <= len && HoldsAt(ts, o, s)
    requires |s| < len ==> At(ts, o + |s|) == Break
    ensures Drive(Matched(buf, len), len, ts, o)
         == Drive(Rec(Stop(0, START), Filled(buf, s)), len, ts, if |s| < len then o + |s| + 1 else o + len)
  {
    assert s[..0] == [];
    assert Filled(buf, []) == buf;
    if len > 0 {
      PayRun(ts, o, s, 0, buf, len);
    } else {
      assert s == [];
    }
  }

  lemma StopOne(ts: seq<Tok>, o: nat, sb: seq<byte>, k: nat, b: byte, buf: seq<byte>, len: nat)
    requires len <= |buf| && |sb| == 4 && k < 4 && At(ts, o + k) == Byte(b)
    ensures Drive(Rec(Stop(k, sb), buf), len, ts, o + k)
         == if k < 3 then Drive(Rec(Stop(k + 1, sb[k := b]), buf), len, ts, o + k + 1)
            else Ran(Rec(Verdict(sb[3 := b]), buf), o + 4)
  {
    assert Drive(Rec(Stop(k, sb), buf), len, ts, o + k)
        == Drive(Step(Rec(Stop(k, sb), buf), len, Byte(b)), len, ts, o + k + 1);
  }

  lemma StopBreak(ts: seq<Tok>, o: nat, sb: seq<byte>, k: nat, buf: seq<byte>, len: nat)
    requires len <= |buf| && |sb| == 4 && k < 4 && At(ts, o + k) == Break && sb[3] == 0x55
    ensures Drive(Rec(Stop(k, sb), buf), len, ts, o + k) == Ran(Rec(Rejected, buf), o + k + 1)
  {
    assert STOP[3] == 0xFF;
    assert Drive(Rec(Stop(k, sb), buf), len, ts, o + k)
        == Drive(Step(Rec(Stop(k, sb), buf), len, Break), len, ts, o + k + 1);
  }

  function Over(sb: seq<byte>, d: seq<byte>, k: nat): (r: seq<byte>)
    requires |sb| == 4 && k <= |d| <= 4
    ensures |r| == 4
  {
    d[..k] + sb[k..]
  }

  lemma {:induction false} StopRun(ts: seq<Tok>, o: nat, d: seq<byte>, k: nat, n: nat, sb: seq<byte>, buf: seq<byte>,
                                   len: nat)
    requires len <= |buf| && |sb| == 4 && HoldsAt(ts, o, d) && |d| <= 4 && k <= n <= |d| && n <= 3
    ensures Drive(Rec(Stop(k, Over(sb, d, k)), buf), len, ts, o + k)
         == Drive(Rec(Stop(n, Over(sb, d, n)), buf), len, ts, o + n)
    decreases n - k
  {
    if k < n {
      StopOne(ts, o, Over(sb, d, k), k, d[k], buf, len);
      assert Over(sb, d, k)[k := d[k]] == Over(sb, d, k + 1);
      StopRun(ts, o, d, k + 1, n, sb, buf, len);
    }
  }

  /** The comparison with the stop sequence. A truncated one never matches: the
      bytes it did not overwrite still hold the start sequence. */
  lemma StopFromStart(ts: seq<Tok>, o: nat, d: seq<byte>, buf: seq<byte>, len: nat)
    requires len <= |buf| && HoldsAt(ts, o, d) && |d| <= 4
    requires |d| < 4 ==> At(ts, o + |d|) == Break
    ensures Drive(Rec(Stop(0, START), buf), len, ts, o)
         == if |d| < 4 then Ran(Rec(Rejected, buf), o + |d| + 1) else Ran(Rec(Verdict(d), buf), o + 4)
  {
    assert Over(START, d, 0) == START;
    if |d| < 4 {
      StopRun(ts, o, d, 0, |d|, START, buf, len);
      StopBreak(ts, o, Over(START, d, |d|), |d|, buf, len);
    } else {
      StopRun(ts, o, d, 0, 3, START, buf, len);
      assert At(ts, o + 3) == Byte(d[3]);
      StopOne(ts, o, Over(START, d, 3), 3, d[3], buf, len);
      assert Over(START, d, 3)[3 := d[3]] == d;
    }
  }

  // ---------------------------------------------------------------- hunting

  predicate StartsAt(s: seq<byte>, q: nat) {
    q + 4 <= |s| && s[q..q + 4] == START
  }

  ghost predicate NoStart(s: seq<byte>) {
    forall q: nat :: !StartsAt(s, q)
  }

  /** p is where the start sequence first occurs in s. */
  ghost predicate FirstStart(s: seq<byte>, p: nat) {
    StartsAt(s, p) && forall q: nat | q < p :: !StartsAt(s, q)
  }

  /** The window after k bytes of s: the last three of them, or all. */
  function Window(s: seq<byte>, k: nat): (w: seq<byte>)
    requires k <= |s|
    ensures |w| <= 3
  {
    if k <= 3 then s[..k] else s[k - 3..k]
  }

  lemma HuntOne(s: seq<byte>, k: nat, buf: seq<byte>, len: nat)
    requires len <= |buf| && k < |s|
    ensures Step(Rec(Hunt(Window(s, k)), buf), len, Byte(s[k]))
         == if k >= 3 && StartsAt(s, k - 3) then Matched(buf, len) else Rec(Hunt(Window(s, k + 1)), buf)
  {
    if k >= 3 {
      assert Window(s, k) + [s[k]] == s[k - 3..k + 1];
      assert s[k - 3..k + 1][1..] == s[k - 2..k + 1];
    } else {
      assert Window(s, k) + [s[k]] == s[..k + 1];
    }
  }

  /** Bytes that complete no start sequence only move the window. */
  lemma {:induction false} HuntRun(ts: seq<Tok>, s: seq<byte>, k: nat, n: nat, buf: seq<byte>, len: nat)
    requires len <= |buf| && HoldsAt(ts, 0, s) && k <= n <= |s|
    requires forall q: nat | q + 4 <= n :: !StartsAt(s, q)
    ensures Drive(Rec(Hunt(Window(s, k)), buf), len, ts, k) == Drive(Rec(Hunt(Window(s, n)), buf), len, ts, n)
    decreases n - k
  {
    if k < n {
      assert At(ts, k) == Byte(s[k]);
      HuntOne(s, k, buf, len);
      HuntRun(ts, s, k + 1, n, buf, len);
    }
  }

  /** Everything up to and including the first start sequence is skipped. */
  lemma HuntFinds(ts: seq<Tok>, s: seq<byte>, p: nat, buf: seq<byte>, len: nat)
    requires len <= |buf| && HoldsAt(ts, 0, s) && FirstStart(s, p)
    ensures Drive(Init(buf), len, ts, 0) == Drive(Matched(buf, len), len, ts, p + 4)
  {
    assert Window(s, 0) == [];
    HuntRun(ts, s, 0, p + 3, buf, len);
    assert At(ts, p + 3) == Byte(s[p + 3]);
    HuntOne(s, p + 3, buf, len);
  }

  lemma HuntFails(ts: seq<Tok>, s: seq<byte>, buf: seq<byte>, len: nat)
    requires len <= |buf| && HoldsAt(ts, 0, s) && At(ts, |s|) == Break && NoStart(s)
    ensures Drive(Init(buf), len, ts, 0) == Ran(Rec(Rejected, buf), |s| + 1)
  {
    assert Window(s, 0) == [];
    HuntRun(ts, s, 0, |s|, buf, len);
  }
}
