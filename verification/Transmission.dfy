/** The blocking calls over a connection: exact reads, the acknowledgement in
    both directions, and the frame receiver. */
module Transmission {
  import opened Bytes
  import opened Channel
  import opened Framing

  const ACK: seq<byte> := [0x41, 0x43, 0x4B]

  /** What an exact read of len bytes after n tokens of ts finds: the bytes d,
      and, when those are too few, the report of the end. */
  ghost predicate Finds(ts: seq<Tok>, n: nat, len: nat, d: seq<byte>) {
    && |d| <= len
    && HoldsAt(ts, n, d)
    && (|d| < len ==> At(ts, n + |d|) == Break)
  }

  /** How many tokens that exact read consumes. */
  function Cost(len: nat, d: seq<byte>): nat {
    if |d| < len then |d| + 1 else |d|
  }

  /** The bytes that it finds. */
  ghost function Found(ts: seq<Tok>, n: nat, len: nat): (d: seq<byte>)
    ensures Finds(ts, n, len, d)
    decreases len
  {
    if len == 0 || At(ts, n).Break? then [] else FoundMore(ts, n, Found(ts, n + 1, len - 1), len)
  }

  ghost function FoundMore(ts: seq<Tok>, n: nat, d: seq<byte>, len: nat): (e: seq<byte>)
    requires len > 0 && At(ts, n).Byte? && Finds(ts, n + 1, len - 1, d)
    ensures Finds(ts, n, len, e)
  {
    var e := [At(ts, n).b] + d;
    assert HoldsAt(ts, n, e) by {
      forall i: nat | n <= i < n + |e|
        ensures At(ts, i) == Byte(e[i - n])
      {
        assert i > n ==> e[i - n] == d[i - (n + 1)];
      }
    }
    assert n + 1 + |d| == n + |e|;
    e
  }

  lemma FindsUnique(ts: seq<Tok>, n: nat, len: nat, d: seq<byte>, e: seq<byte>)
    requires Finds(ts, n, len, d) && Finds(ts, n, len, e)
    ensures d == e
  {
    forall i | 0 <= i < |d| && i < |e|
      ensures d[i] == e[i]
    {
      assert At(ts, n + i) == Byte(d[i]);
    }
  }

  /** The bytes of b after those of a have just been read. */
  lemma Extend(ts: seq<Tok>, n: nat, a: seq<byte>, b: seq<byte>)
    requires HoldsAt(ts, n, a) && |a| <= |b| && b[..|a|] == a
    requires forall k: nat | |a| <= k < |b| :: At(ts, n + k) == Byte(b[k])
    ensures HoldsAt(ts, n, b)
  {
    forall i: nat | n <= i < n + |b|
      ensures At(ts, i) == Byte(b[i - n])
    {
      var k := i - n;
      if k < |a| {
        assert a[k] == b[..|a|][k] == b[k];
      } else {
        assert At(ts, n + k) == Byte(b[k]);
      }
    }
  }

  method ReadExact(ch: Channel, buf: array<byte>, len: nat) returns (ret: int, ghost d: seq<byte>)
    requires ch.Valid() && len <= buf.Length
    modifies ch, buf
    ensures ch.Valid() && ch.outgoing == old(ch.outgoing)
    ensures Finds(ch.all, old(ch.pos), len, d)
    ensures ret == (if |d| == len then 0 else 1)
    ensures buf[..|d|] == d
    ensures forall k | |d| <= k < buf.Length :: buf[k] == old(buf[k])
    ensures ch.pos == old(ch.pos) + Cost(len, d)
    ensures LogsReads(old(ch.log), ch.log, ch.all, old(ch.pos), ch.pos)
  {
    var total := 0;
    d := [];
    while total < len
      invariant total == |d| <= len
      invariant ch.Valid() && ch.outgoing == old(ch.outgoing)
      invariant HoldsAt(ch.all, old(ch.pos), d) && buf[..total] == d
      invariant forall k | total <= k < buf.Length :: buf[k] == old(buf[k])
      invariant ch.pos == old(ch.pos) + total
      invariant LogsReads(old(ch.log), ch.log, ch.all, old(ch.pos), ch.pos)
      decreases ch.Pending()
    {
      ghost var log, pos := ch.log, ch.pos;
      var got := ch.Read(buf, total, len - total);
      assert buf[..total] == d;
      LogsMore(old(ch.log), log, ch.log, ch.all, old(ch.pos), pos, ch.pos);
      if got == 0 {
        return 1, d;
      }
      if got > 0 {
        ghost var e := buf[..total + got];
        assert e[..total] == d;
        Extend(ch.all, old(ch.pos), d, e);
        total, d := total + got, e;
        continue;
      }
      if ch.lastError != ErrorWantRead {
        return 1, d;
      }
    }
    return 0, d;
  }

  method WaitForAck(ch: Channel) returns (ret: int, ghost d: seq<byte>)
    requires ch.Valid()
    modifies ch
    ensures ch.Valid() && ch.outgoing == old(ch.outgoing)
    ensures Finds(ch.all, old(ch.pos), 3, d)
    ensures ret == (if d == ACK then 0 else 1)
    ensures ret == 0 <==> At(ch.all, old(ch.pos)) == Byte(0x41) && At(ch.all, old(ch.pos) + 1) == Byte(0x43)
                          && At(ch.all, old(ch.pos) + 2) == Byte(0x4B)
    ensures ch.pos == old(ch.pos) + Cost(3, d)
    ensures LogsReads(old(ch.log), ch.log, ch.all, old(ch.pos), ch.pos)
  {
    var buf := new byte[3](_ => 0);
    var total := 0;
    d := [];
    while total < 3
      invariant total == |d| <= 3
      invariant ch.Valid() && ch.outgoing == old(ch.outgoing)
      invariant HoldsAt(ch.all, old(ch.pos), d) && buf[..total] == d
      invariant ch.pos == old(ch.pos) + total
      invariant LogsReads(old(ch.log), ch.log, ch.all, old(ch.pos), ch.pos)
      decreases ch.Pending()
    {
      ghost var log, pos := ch.log, ch.pos;
      var got := ch.Read(buf, total, 3 - total);
      assert buf[..total] == d;
      LogsMore(old(ch.log), log, ch.log, ch.all, old(ch.pos), pos, ch.pos);
      if got > 0 {
        ghost var e := buf[..total + got];
        assert e[..total] == d;
        Extend(ch.all, old(ch.pos), d, e);
        total, d := total + got, e;
        continue;
      }
      if ch.lastError != ErrorWantRead {
        return 1, d;
      }
    }
    assert buf[..] == d;
    if buf[..] == ACK {
      return 0, d;
    }
    return 1, d;
  }

  lemma WritesAppend(a: seq<byte>, b: seq<byte>)
    ensures Writes(a + b) == Writes(a) + Writes(b)
  {
  }

  lemma LogsMoreWrites(l0: seq<Act>, l1: seq<Act>, l2: seq<Act>, a: seq<byte>, b: seq<byte>)
    requires l1 == l0 + Writes(a) && l2 == l1 + Writes(b)
    ensures l2 == l0 + Writes(a + b)
  {
    WritesAppend(a, b);
    hide Writes;
    assert l0 + Writes(a) + Writes(b) == l0 + (Writes(a) + Writes(b));
  }

  lemma Halves(d: seq<byte>, i: nat, m: nat)
    requires i + m <= |d|
    ensures d[..i] + d[i..][..m] == d[..i + m]
  {
  }

  /** How much of the acknowledgement goes out when total bytes of it have gone
      already, and the schedule after that. */
  function AckWrites(evs: seq<WriteEvent>, total: nat): (r: (nat, seq<WriteEvent>))
    requires total <= 3
    ensures r.0 <= 3
    decreases |evs|
  {
    if total == 3 || evs == [] then (3, evs)
    else if Fails(evs[0]) then (total, evs[1..])
    else if Again(evs[0]) then AckWrites(evs[1..], total)
    else AckWrites(evs[1..], total + Min(evs[0].most, 3 - total))
  }

  /** The acknowledgement goes out if and only if no close or fatal error is met
      on the way; retries and short writes do not matter. */
  lemma {:induction false} AckGoesOut(evs: seq<WriteEvent>, total: nat)
    requires total <= 3
    ensures var (sent, rest) := AckWrites(evs, total);
      && SuffixOf(rest, evs)
      && (sent == 3 <==> forall i | 0 <= i < |evs| - |rest| :: !Fails(evs[i]))
    decreases |evs|
  {
    if total == 3 || evs == [] || Fails(evs[0]) {
    } else {
      var more := evs[1..];
      var total' := if Again(evs[0]) then total else total + Min(evs[0].most, 3 - total);
      AckGoesOut(more, total');
      var rest := AckWrites(more, total').1;
      SuffixTrans(rest, more, evs);
      assert forall i | 0 <= i < |more| - |rest| :: more[i] == evs[i + 1];
      if (forall i | 0 <= i < |more| - |rest| :: !Fails(more[i])) {
        forall i | 0 <= i < |evs| - |rest|
          ensures !Fails(evs[i])
        {
          assert i > 0 ==> evs[i] == more[i - 1];
        }
      }
    }
  }

  /** One write of the rest of the acknowledgement. */
  lemma AckWrite(evs: seq<WriteEvent>, total: nat, n: int, rest: seq<WriteEvent>)
    requires total < 3 && (n, rest) == WriteReturns(evs, 3 - total)
    ensures AckWrites(evs, total) == if n > 0 then AckWrites(rest, total + n)
                                     else if n < 0 && Again(evs[0]) then AckWrites(rest, total)
                                     else (total, rest)
    ensures n < 0 && Again(evs[0]) ==> |rest| < |evs|
  {
  }

  /** The log after one more write of the acknowledgement. */
  lemma AckLogged(l0: seq<Act>, l1: seq<Act>, l2: seq<Act>, total: nat, n: int)
    requires total < 3 && -1 <= n <= 3 - total && l1 == l0 + Writes(ACK[..total])
    requires l2 == l1 + Writes(ACK[total..][..if n > 0 then n else 0])
    ensures l2 == l0 + Writes(ACK[..if n > 0 then total + n else total])
  {
    var m := if n > 0 then n else 0;
    hide Writes;
    LogsMoreWrites(l0, l1, l2, ACK[..total], ACK[total..][..m]);
    Halves(ACK, total, m);
  }

  /** On failure sent tells how much of the acknowledgement went out. */
  method SendAck(ch: Channel) returns (ret: int, ghost sent: nat)
    requires ch.Valid()
    modifies ch
    ensures ch.Valid() && ch.pos == old(ch.pos)
    ensures sent <= 3 && ret == (if sent == 3 then 0 else 1)
    ensures ch.log == old(ch.log) + Writes(ACK[..sent])
    ensures ret == 0 ==> ch.log == old(ch.log) + [Wr(0x41), Wr(0x43), Wr(0x4B)]
    ensures (sent, ch.outgoing) == AckWrites(old(ch.outgoing), 0)
    ensures SuffixOf(ch.outgoing, old(ch.outgoing))
    ensures ret == 0 <==> forall i | 0 <= i < |old(ch.outgoing)| - |ch.outgoing| :: !Fails(old(ch.outgoing)[i])
  {
    AckGoesOut(ch.outgoing, 0);
    assert Writes(ACK[..0]) == [];
    hide AckWrites, WriteReturns, SuffixOf, Again, Fails, Writes;
    var total := 0;
    while total < 3
      invariant total <= 3
      invariant ch.Valid() && ch.pos == old(ch.pos)
      invariant ch.log == old(ch.log) + Writes(ACK[..total])
      invariant AckWrites(old(ch.outgoing), 0) == AckWrites(ch.outgoing, total)
      decreases 3 - total, |ch.outgoing|
    {
      ghost var evs, log := ch.outgoing, ch.log;
      var n := ch.Write(ACK[total..]);
      AckWrite(evs, total, n, ch.outgoing);
      AckLogged(old(ch.log), log, ch.log, total, n);
      if n > 0 {
        total := total + n;
        continue;
      }
      if n == 0 {
        return 1, total;
      }
      if ch.lastError != ErrorWantWrite {
        return 1, total;
      }
    }
    return 0, total;
  }

  /** One step of the hunt: the byte read into the last place of the window. */
  lemma HuntStep(win: seq<byte>, b: byte, buf: seq<byte>, len: nat, ts: seq<Tok>, n: nat)
    requires |win| <= 3 && len <= |buf| && At(ts, n) == Byte(b)
    ensures Drive(Rec(Hunt(win), buf), len, ts, n)
         == Drive(if |win| < 3 then Rec(Hunt(win + [b]), buf)
                  else if win + [b] == START then Matched(buf, len)
                  else Rec(Hunt((win + [b])[1..]), buf), len, ts, n + 1)
  {
  }

  /** memmove of the window by one place. */
  method ShiftDown(seqBuf: array<byte>)
    requires seqBuf.Length == 4
    modifies seqBuf
    ensures seqBuf[..3] == old(seqBuf[..])[1..]
  {
    seqBuf[0], seqBuf[1], seqBuf[2] := seqBuf[1], seqBuf[2], seqBuf[3];
  }

  /** The hunting loop of the receiver: 0 right after a start sequence, 1 when
      the input ends first. */
  method HuntForStart(ch: Channel, seqBuf: array<byte>, ghost buf: seq<byte>, ghost len: nat) returns (ret: int)
    requires ch.Valid() && seqBuf.Length == 4 && len <= |buf|
    modifies ch, seqBuf
    ensures ch.Valid() && ch.outgoing == old(ch.outgoing)
    ensures ret == 0 || ret == 1
    ensures ret == 0 ==> seqBuf[..] == START
                         && Drive(Init(buf), len, ch.all, old(ch.pos)) == Drive(Matched(buf, len), len, ch.all, ch.pos)
    ensures ret == 1 ==> Drive(Init(buf), len, ch.all, old(ch.pos)) == Ran(Rec(Rejected, buf), ch.pos)
    ensures old(ch.pos) <= ch.pos && LogsReads(old(ch.log), ch.log, ch.all, old(ch.pos), ch.pos)
  {
    var idx := 0;
    ghost var win: seq<byte> := [];
    while true
      invariant 0 <= idx == |win| <= 3 && seqBuf[..idx] == win
      invariant ch.Valid() && ch.outgoing == old(ch.outgoing)
      invariant Drive(Init(buf), len, ch.all, old(ch.pos)) == Drive(Rec(Hunt(win), buf), len, ch.all, ch.pos)
      invariant old(ch.pos) <= ch.pos && LogsReads(old(ch.log), ch.log, ch.all, old(ch.pos), ch.pos)
      decreases ch.Pending()
    {
      ghost var log, pos := ch.log, ch.pos;
      var got := ch.Read(seqBuf, idx, 1);
      assert seqBuf[..idx] == win;
      LogsMore(old(ch.log), log, ch.log, ch.all, old(ch.pos), pos, ch.pos);
      if got == 1 {
        ghost var b := seqBuf[idx];
        assert Byte(b) == At(ch.all, pos + (idx - idx));
        HuntStep(win, b, buf, len, ch.all, pos);
        assert seqBuf[..idx + 1] == win + [b];
        if idx < 3 {
          idx, win := idx + 1, win + [b];
          continue;
        }
        assert seqBuf[..] == win + [b];
        if seqBuf[..] == START {
          return 0;
        }
        ShiftDown(seqBuf);
        win := (win + [b])[1..];
        continue;
      }
      if got == 0 {
        return 1;
      }
      if ch.lastError != ErrorWantRead {
        return 1;
      }
    }
  }

  /** The two exact reads after the start sequence, in terms of the automaton. */
  lemma AfterHunt(ts: seq<Tok>, n: nat, d: seq<byte>, e: seq<byte>, buf: seq<byte>, len: nat)
    requires len <= |buf| && Finds(ts, n, len, d) && Finds(ts, n + Cost(len, d), 4, e)
    ensures Drive(Matched(buf, len), len, ts, n)
         == Ran(Rec(if |e| < 4 then Rejected else Verdict(e), Filled(buf, d)), n + Cost(len, d) + Cost(4, e))
  {
    MatchedRun(ts, n, d, buf, len);
    StopFromStart(ts, n + Cost(len, d), e, Filled(buf, d), len);
  }

  /** The comparison buffer after the second read. */
  lemma StopCompare(seqBuf: seq<byte>, e: seq<byte>)
    requires |seqBuf| == 4 && |e| <= 4 && seqBuf[..|e|] == e
    requires forall k | |e| <= k < 4 :: seqBuf[k] == START[k]
    ensures seqBuf == STOP <==> |e| == 4 && e == STOP
  {
    if |e| == 4 {
      assert seqBuf == e;
    } else {
      assert seqBuf[3] == START[3];
    }
  }

  /** recStream. Its result, the buffer and the input consumed are those of the
      automaton, whatever the fragmentation of the input. */
  method RecStream(ch: Channel, outBuf: array<byte>, len: byte) returns (ret: int)
    requires ch.Valid() && len <= outBuf.Length
    modifies ch, outBuf
    ensures ch.Valid() && ch.outgoing == old(ch.outgoing)
    ensures var r := Drive(Init(old(outBuf[..])), len, ch.all, old(ch.pos));
      && ret == (if r.st.ph.Accepted? then 0 else 1)
      && outBuf[..] == r.st.buf
      && ch.pos == r.n
    ensures LogsReads(old(ch.log), ch.log, ch.all, old(ch.pos), ch.pos)
  {
    ghost var buf := outBuf[..];
    var seqBuf := new byte[4](_ => 0);
    ret := HuntForStart(ch, seqBuf, buf, len);
    assert outBuf[..] == buf;
    if ret == 1 {
      return;
    }
    ret := RecBody(ch, outBuf, seqBuf, len, old(ch.pos), old(ch.log), buf);
  }

  /** The rest of recStream, from the end of the start sequence on. The results
      of both exact reads are ignored, as their tests against 0 never fire. */
  method RecBody(ch: Channel, outBuf: array<byte>, seqBuf: array<byte>, len: byte,
                 ghost pos0: nat, ghost log0: seq<Act>, ghost buf: seq<byte>) returns (ret: int)
    requires ch.Valid() && len <= outBuf.Length && seqBuf.Length == 4 && outBuf != seqBuf
    requires seqBuf[..] == START && outBuf[..] == buf
    requires pos0 <= ch.pos && LogsReads(log0, ch.log, ch.all, pos0, ch.pos)
    modifies ch, outBuf, seqBuf
    ensures ch.Valid() && ch.outgoing == old(ch.outgoing)
    ensures var r := Drive(Matched(buf, len), len, ch.all, old(ch.pos));
      && ret == (if r.st.ph.Accepted? then 0 else 1)
      && outBuf[..] == r.st.buf
      && ch.pos == r.n
    ensures LogsReads(log0, ch.log, ch.all, pos0, ch.pos)
  {
    ghost var log1, pos1 := ch.log, ch.pos;
    ghost var d, e;
    ret, d := ReadExact(ch, outBuf, len);
    assert outBuf[..] == Filled(buf, d);
    assert seqBuf[..] == START;
    ghost var log2, pos2 := ch.log, ch.pos;
    ret, e := ReadExact(ch, seqBuf, 4);
    AfterHunt(ch.all, pos1, d, e, buf, len);
    StopCompare(seqBuf[..], e);
    LogsMore(log0, log1, log2, ch.all, pos0, pos1, pos2);
    LogsMore(log0, log2, ch.log, ch.all, pos0, pos2, ch.pos);
    ret := if seqBuf[..] == STOP then 0 else 1;
  }
}
