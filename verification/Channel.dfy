/** A TLS connection as seen by one of its ends: what the peer's bytes, the
    record layer and the socket make of each read and write call. */
module Channel {
  import opened Bytes

  /** What the next read call meets. An empty chunk is one more WANT_READ. */
  datatype ReadEvent = Chunk(data: seq<byte>) | WantRead | PeerClosed | ReadFatal

  /** What the next write call meets. Accepting nothing is one more WANT_WRITE. */
  datatype WriteEvent = Accept(most: nat) | WantWrite | WriteClosed | WriteFatal

  datatype SslError = None | ErrorWantRead | ErrorWantWrite | ErrorZeroReturn | ErrorSsl

  /** The input with fragmentation and retries erased: bytes, and the places
      where a read call reports that the connection is gone. */
  datatype Tok = Byte(b: byte) | Break

  /** One observable action of an endpoint. */
  datatype Act = Rd(tok: Tok) | Wr(b: byte)

  function Toks(d: seq<byte>): (ts: seq<Tok>)
    ensures |ts| == |d| && forall i :: 0 <= i < |d| ==> ts[i] == Byte(d[i])
  {
    seq(|d|, i requires 0 <= i < |d| => Byte(d[i]))
  }

  lemma ToksAppend(a: seq<byte>, b: seq<byte>)
    ensures Toks(a + b) == Toks(a) + Toks(b)
  {
  }

  function Writes(d: seq<byte>): (acts: seq<Act>)
    ensures |acts| == |d| && forall i :: 0 <= i < |d| ==> acts[i] == Wr(d[i])
  {
    seq(|d|, i requires 0 <= i < |d| => Wr(d[i]))
  }

  function EventToks(ev: ReadEvent): seq<Tok> {
    match ev
    case Chunk(d) => Toks(d)
    case WantRead => []
    case PeerClosed => [Break]
    case ReadFatal => [Break]
  }

  /** The token stream a schedule of read events delivers. */
  function Tokens(evs: seq<ReadEvent>): seq<Tok> {
    if evs == [] then [] else EventToks(evs[0]) + Tokens(evs[1..])
  }

  /** The i-th token a reader sees. An exhausted schedule is a connection that
      stays closed. */
  function At(ts: seq<Tok>, i: nat): Tok {
    if i < |ts| then ts[i] else Break
  }

  /** The first n tokens that n reads see, and the input that is left then. */
  function Take(ts: seq<Tok>, n: nat): (us: seq<Tok>)
    ensures |us| == n && forall i :: 0 <= i < n ==> us[i] == At(ts, i)
  {
    seq(n, i requires 0 <= i => At(ts, i))
  }

  function Drop(ts: seq<Tok>, n: nat): (us: seq<Tok>)
    ensures forall i: nat :: At(us, i) == At(ts, n + i)
  {
    if n <= |ts| then ts[n..] else []
  }

  /** Bound on the read calls that can still return data or ask for a retry. */
  function Load(evs: seq<ReadEvent>): nat {
    if evs == [] then 0
    else 1 + (if evs[0].Chunk? then |evs[0].data| else 0) + Load(evs[1..])
  }

  lemma {:induction false} TokensAppend(a: seq<ReadEvent>, b: seq<ReadEvent>)
    ensures Tokens(a + b) == Tokens(a) + Tokens(b)
  {
    if a == [] {
      assert a + b == b;
    } else {
      assert (a + b)[1..] == a[1..] + b;
      calc {
        Tokens(a + b);
        EventToks(a[0]) + Tokens(a[1..] + b);
        { TokensAppend(a[1..], b); }
        EventToks(a[0]) + (Tokens(a[1..]) + Tokens(b));
        (EventToks(a[0]) + Tokens(a[1..])) + Tokens(b);
        Tokens(a) + Tokens(b);
      }
    }
  }

  /** The schedule after a read took the first m bytes of the leading chunk. */
  function Leftover(evs: seq<ReadEvent>, m: nat): seq<ReadEvent>
    requires evs != [] && evs[0].Chunk? && m <= |evs[0].data|
  {
    if m == |evs[0].data| then evs[1..] else [Chunk(evs[0].data[m..])] + evs[1..]
  }

  lemma Assoc<T>(a: seq<T>, b: seq<T>, c: seq<T>)
    ensures (a + b) + c == a + (b + c)
  {
  }

  lemma TokensCons(ev: ReadEvent, evs: seq<ReadEvent>)
    ensures Tokens([ev] + evs) == EventToks(ev) + Tokens(evs)
    ensures Load([ev] + evs) == 1 + (if ev.Chunk? then |ev.data| else 0) + Load(evs)
  {
    assert ([ev] + evs)[1..] == evs;
  }

  lemma ShortRead(evs: seq<ReadEvent>, m: nat)
    requires evs != [] && evs[0].Chunk? && 0 < m <= |evs[0].data|
    ensures Tokens(evs) == Toks(evs[0].data[..m]) + Tokens(Leftover(evs, m))
    ensures Load(Leftover(evs, m)) < Load(evs)
  {
    var d, more := evs[0].data, evs[1..];
    var a, b := d[..m], d[m..];
    if m < |d| {
      assert d == a + b;
      ToksAppend(a, b);
      TokensCons(Chunk(b), more);
      Assoc(Toks(a), Toks(b), Tokens(more));
    } else {
      assert d == a;
    }
  }

  /** us is what is left of ts after n tokens. */
  ghost predicate Rest(us: seq<Tok>, ts: seq<Tok>, n: nat) {
    forall i: nat :: At(us, i) == At(ts, n + i)
  }

  lemma RestSelf(ts: seq<Tok>)
    ensures Rest(ts, ts, 0)
  {
  }

  lemma RestMore(us: seq<Tok>, vs: seq<Tok>, d: seq<byte>, ts: seq<Tok>, n: nat)
    requires Rest(us, ts, n) && us == Toks(d) + vs
    ensures Rest(vs, ts, n + |d|)
    ensures forall i: nat | n <= i < n + |d| :: At(ts, i) == Byte(d[i - n])
  {
    forall i: nat
      ensures At(vs, i) == At(ts, n + |d| + i)
    {
      assert At(us, |d| + i) == At(ts, n + (|d| + i));
    }
    forall i: nat | n <= i < n + |d|
      ensures At(ts, i) == Byte(d[i - n])
    {
      assert At(us, i - n) == At(ts, n + (i - n));
    }
  }

  /** A read took the first m bytes of the leading chunk. */
  lemma ChunkTaken(evs: seq<ReadEvent>, m: nat, ts: seq<Tok>, n: nat)
    requires evs != [] && evs[0].Chunk? && 0 < m <= |evs[0].data| && Rest(Tokens(evs), ts, n)
    ensures Rest(Tokens(Leftover(evs, m)), ts, n + m) && Load(Leftover(evs, m)) < Load(evs)
    ensures forall i: nat | n <= i < n + m :: At(ts, i) == Byte(evs[0].data[i - n])
  {
    ShortRead(evs, m);
    var d, us, vs := evs[0].data[..m], Tokens(evs), Tokens(Leftover(evs, m));
    hide *;
    RestMore(us, vs, d, ts, n);
    forall i: nat | n <= i < n + m
      ensures At(ts, i) == Byte(evs[0].data[i - n])
    {
      assert d[i - n] == evs[0].data[i - n];
    }
  }

  /** The bytes d come next, at place n. */
  ghost predicate Next(ts: seq<Tok>, n: nat, d: seq<byte>) {
    forall k: nat | k < |d| :: At(ts, n + k) == Byte(d[k])
  }

  lemma TakenAt(d: seq<byte>, m: nat, ts: seq<Tok>, n: nat)
    requires m <= |d| && forall i: nat | n <= i < n + m :: At(ts, i) == Byte(d[i - n])
    ensures Next(ts, n, d[..m])
  {
    forall k: nat | k < m
      ensures Byte(d[..m][k]) == At(ts, n + k)
    {
      assert At(ts, n + k) == Byte(d[n + k - n]);
    }
  }

  lemma RestOne(us: seq<Tok>, vs: seq<Tok>, t: Tok, ts: seq<Tok>, n: nat)
    requires Rest(us, ts, n) && (us == [t] + vs || (us == [] == vs && t == Break))
    ensures Rest(vs, ts, n + 1) && At(ts, n) == t
  {
    forall i: nat
      ensures At(vs, i) == At(ts, n + 1 + i)
    {
      assert At(us, 1 + i) == At(ts, n + (1 + i));
    }
    assert At(us, 0) == At(ts, n + 0);
  }

  /** Nothing that was logged is lost. */
  ghost predicate Grows(l0: seq<Act>, l1: seq<Act>) {
    |l0| <= |l1| && forall i | 0 <= i < |l0| :: l1[i] == l0[i]
  }

  /** The log grew by the reads of the tokens from a up to b. */
  ghost predicate LogsReads(l0: seq<Act>, l1: seq<Act>, ts: seq<Tok>, a: nat, b: nat) {
    && |l1| == |l0| + (b - a)
    && |l0| <= |l1|
    && (forall i | 0 <= i < |l0| :: l1[i] == l0[i])
    && (forall i | |l0| <= i < |l1| :: l1[i] == Rd(At(ts, a + (i - |l0|))))
  }

  function LogRead(l0: seq<Act>, ts: seq<Tok>, a: nat, n: nat): (l1: seq<Act>)
    ensures LogsReads(l0, l1, ts, a, a + n)
  {
    l0 + seq(n, i requires 0 <= i => Rd(At(ts, a + i)))
  }

  lemma LogsMore(l0: seq<Act>, l1: seq<Act>, l2: seq<Act>, ts: seq<Tok>, a: nat, b: nat, c: nat)
    requires LogsReads(l0, l1, ts, a, b) && LogsReads(l1, l2, ts, b, c) && a <= b <= c
    ensures LogsReads(l0, l2, ts, a, c)
  {
  }

  /** The tokens read and the bytes written by the actions log[lo..hi]. */
  function ReadsIn(log: seq<Act>, lo: nat, hi: nat): seq<Tok>
    requires lo <= hi <= |log|
    decreases hi - lo
  {
    if lo == hi then [] else (if log[lo].Rd? then [log[lo].tok] else []) + ReadsIn(log, lo + 1, hi)
  }

  function WritesIn(log: seq<Act>, lo: nat, hi: nat): seq<byte>
    requires lo <= hi <= |log|
    decreases hi - lo
  {
    if lo == hi then [] else (if log[lo].Wr? then [log[lo].b] else []) + WritesIn(log, lo + 1, hi)
  }

  lemma {:induction false} ReadsSplit(log: seq<Act>, lo: nat, mid: nat, hi: nat)
    requires lo <= mid <= hi <= |log|
    ensures ReadsIn(log, lo, hi) == ReadsIn(log, lo, mid) + ReadsIn(log, mid, hi)
    decreases mid - lo
  {
    if lo < mid {
      ReadsSplit(log, lo + 1, mid, hi);
    }
  }

  lemma {:induction false} ReadsKept(l0: seq<Act>, l1: seq<Act>, lo: nat, hi: nat)
    requires lo <= hi <= |l0| && Grows(l0, l1)
    ensures ReadsIn(l0, lo, hi) == ReadsIn(l1, lo, hi)
    decreases hi - lo
  {
    if lo < hi {
      ReadsKept(l0, l1, lo + 1, hi);
    }
  }

  /** The reads of the log are the input up to place n. */
  ghost predicate Logged(log: seq<Act>, ts: seq<Tok>, n: nat) {
    ReadsIn(log, 0, |log|) == Take(ts, n)
  }

  /** The input from place a up to place b. */
  function Between(ts: seq<Tok>, a: nat, b: nat): (us: seq<Tok>)
    requires a <= b
    ensures |us| == b - a && forall i: nat | i < |us| :: us[i] == At(ts, a + i)
  {
    seq(b - a, i requires 0 <= i < b - a => At(ts, a + i))
  }

  lemma {:induction false} ReadsAre(log: seq<Act>, lo: nat, hi: nat, ts: seq<Tok>, a: nat)
    requires lo <= hi <= |log| && forall i: nat | lo <= i < hi :: log[i] == Rd(At(ts, a + (i - lo)))
    ensures ReadsIn(log, lo, hi) == Between(ts, a, a + (hi - lo))
    decreases hi - lo
  {
    if lo < hi {
      assert log[lo] == Rd(At(ts, a + (lo - lo)));
      forall i: nat | lo + 1 <= i < hi
        ensures log[i] == Rd(At(ts, a + 1 + (i - (lo + 1))))
      {
        assert a + 1 + (i - (lo + 1)) == a + (i - lo);
      }
      ReadsAre(log, lo + 1, hi, ts, a + 1);
      assert Between(ts, a, a + (hi - lo)) == [At(ts, a)] + Between(ts, a + 1, a + (hi - lo));
    }
  }

  lemma {:induction false} NoReads(log: seq<Act>, lo: nat, hi: nat)
    requires lo <= hi <= |log| && forall i | lo <= i < hi :: log[i].Wr?
    ensures ReadsIn(log, lo, hi) == []
    decreases hi - lo
  {
    if lo < hi {
      NoReads(log, lo + 1, hi);
    }
  }

  lemma LoggedReads(l0: seq<Act>, l1: seq<Act>, ts: seq<Tok>, a: nat, b: nat)
    requires Logged(l0, ts, a) && a <= b && LogsReads(l0, l1, ts, a, b)
    ensures Logged(l1, ts, b)
  {
    ReadsSplit(l1, 0, |l0|, |l1|);
    ReadsKept(l0, l1, 0, |l0|);
    ReadsAre(l1, |l0|, |l1|, ts, a);
    assert Take(ts, b) == Take(ts, a) + Between(ts, a, b);
  }

  lemma LoggedWrites(l0: seq<Act>, l1: seq<Act>, ts: seq<Tok>, n: nat, d: seq<byte>)
    requires Logged(l0, ts, n) && l1 == l0 + Writes(d)
    ensures Logged(l1, ts, n)
  {
    ReadsSplit(l1, 0, |l0|, |l1|);
    ReadsKept(l0, l1, 0, |l0|);
    NoReads(l1, |l0|, |l1|);
  }

  /** What was read between two moments is the input between the places then. */
  lemma ReadBetween(l0: seq<Act>, l1: seq<Act>, ts: seq<Tok>, a: nat, b: nat)
    requires Logged(l0, ts, a) && Logged(l1, ts, b) && Grows(l0, l1)
    ensures a <= b && ReadsIn(l1, |l0|, |l1|) == Between(ts, a, b)
  {
    ReadsSplit(l1, 0, |l0|, |l1|);
    ReadsKept(l0, l1, 0, |l0|);
    var us := ReadsIn(l1, |l0|, |l1|);
    assert Take(ts, b) == Take(ts, a) + us;
    forall i: nat | i < |us|
      ensures us[i] == At(ts, a + i)
    {
      assert Take(ts, b)[a + i] == us[i];
    }
  }

  // ---------------------------------------------------------------- writing

  /** The write is to be repeated. */
  predicate Again(ev: WriteEvent) {
    ev.WantWrite? || ev == Accept(0)
  }

  /** The connection takes no more. */
  predicate Fails(ev: WriteEvent) {
    ev.WriteClosed? || ev.WriteFatal?
  }

  /** The write is taken whole if it is for n bytes at most. */
  predicate Whole(ev: WriteEvent, n: nat) {
    ev.Accept? && ev.most >= n
  }

  /** What a write of n bytes returns, and the schedule after it. A schedule that
      is used up takes everything, and a write of nothing meets no event. */
  function WriteReturns(evs: seq<WriteEvent>, n: nat): (r: (int, seq<WriteEvent>))
    ensures -1 <= r.0 <= n && |r.1| <= |evs|
    ensures r.0 < 0 ==> evs != []
  {
    if evs == [] || n == 0 then (n as int, evs)
    else if Again(evs[0]) || evs[0].WriteFatal? then (-1, evs[1..])
    else if evs[0].WriteClosed? then (0, evs[1..])
    else (Min(evs[0].most, n), evs[1..])
  }

  /** e is what is left of the schedule e0. */
  predicate SuffixOf(e: seq<WriteEvent>, e0: seq<WriteEvent>) {
    |e| <= |e0| && e == e0[|e0| - |e|..]
  }

  lemma SuffixTrans(e2: seq<WriteEvent>, e1: seq<WriteEvent>, e0: seq<WriteEvent>)
    requires SuffixOf(e2, e1) && SuffixOf(e1, e0)
    ensures SuffixOf(e2, e0)
  {
    assert e0[|e0| - |e1|..][|e1| - |e2|..] == e0[|e0| - |e2|..];
  }

  /** One end of a connection. The ghost fields give the whole input from the
      time the connection was made, how much of it has been read, and the
      actions taken; the reads among them are the input that has been read. */
  class Channel {
    var incoming: seq<ReadEvent>
    var outgoing: seq<WriteEvent>
    var lastError: SslError
    ghost const all: seq<Tok>
    ghost var pos: nat
    ghost var log: seq<Act>

    ghost predicate Valid()
      reads this
    {
      Rest(Tokens(incoming), all, pos) && Logged(log, all, pos)
    }

    constructor (incoming: seq<ReadEvent>, outgoing: seq<WriteEvent>)
      ensures Valid()
      ensures this.incoming == incoming && this.outgoing == outgoing
      ensures all == Tokens(incoming) && pos == 0 && log == []
    {
      this.incoming, this.outgoing := incoming, outgoing;
      all := Tokens(incoming);
      lastError, pos, log := None, 0, [];
      RestSelf(Tokens(incoming));
    }

    ghost function Pending(): nat
      reads this
    {
      Load(incoming)
    }

    /** wolfSSL_read: up to n bytes into buf at off; 0 on close, negative on error. */
    method Read(buf: array<byte>, off: nat, n: nat) returns (ret: int)
      requires Valid()
      requires 1 <= n && off + n <= buf.Length
      modifies this, buf
      ensures Valid() && outgoing == old(outgoing)
      ensures -1 <= ret <= n
      ensures forall k | 0 <= k < buf.Length && !(off <= k < off + ret) :: buf[k] == old(buf[k])
      ensures ret > 0 ==> pos == old(pos) + ret
      ensures forall i | off <= i < off + ret :: Byte(buf[i]) == At(all, old(pos) + (i - off))
      ensures ret == 0 ==> lastError != ErrorWantRead
      ensures ret <= 0 && lastError == ErrorWantRead ==> pos == old(pos)
      ensures ret <= 0 && lastError != ErrorWantRead ==> At(all, old(pos)) == Break && pos == old(pos) + 1
      ensures LogsReads(old(log), log, all, old(pos), pos)
      ensures ret > 0 || lastError == ErrorWantRead ==> Pending() < old(Pending())
    {
      if incoming == [] {
        ret, lastError := 0, ErrorZeroReturn;
        RestOne([], [], Break, all, pos);
        LogSome(1);
        return;
      }
      TokensCons(incoming[0], incoming[1..]);
      assert incoming == [incoming[0]] + incoming[1..];
      match incoming[0]
      case Chunk(d) =>
        if d == [] {
          ret, lastError := -1, ErrorWantRead;
          incoming := incoming[1..];
          assert Toks([]) + Tokens(incoming) == Tokens(incoming);
        } else {
          var got;
          ret, got := ReadChunk(buf, off, n);
          forall i | off <= i < off + ret
            ensures Byte(buf[i]) == At(all, old(pos) + (i - off))
          {
            assert buf[i] == got[i - off];
          }
        }
      case WantRead =>
        ret, lastError := -1, ErrorWantRead;
        incoming := incoming[1..];
        assert [] + Tokens(incoming) == Tokens(incoming);
      case PeerClosed =>
        ret, lastError := 0, ErrorZeroReturn;
        RestOne(Tokens(incoming), Tokens(incoming[1..]), Break, all, pos);
        incoming := incoming[1..];
        LogSome(1);
      case ReadFatal =>
        ret, lastError := -1, ErrorSsl;
        RestOne(Tokens(incoming), Tokens(incoming[1..]), Break, all, pos);
        incoming := incoming[1..];
        LogSome(1);
    }

    /** The next n tokens are read. */
    ghost method LogSome(n: nat)
      requires Logged(log, all, pos)
      modifies this`log, this`pos
      ensures Logged(log, all, pos) && pos == old(pos) + n && LogsReads(old(log), log, all, old(pos), pos)
    {
      var l0 := log;
      log := LogRead(log, all, pos, n);
      LoggedReads(l0, log, all, pos, pos + n);
      pos := pos + n;
    }

    /** memcpy. */
    method CopyTo(buf: array<byte>, off: nat, d: seq<byte>)
      requires off + |d| <= buf.Length
      modifies buf
      ensures forall k | 0 <= k < buf.Length :: buf[k] == if off <= k < off + |d| then d[k - off] else old(buf[k])
    {
      forall k | off <= k < off + |d| {
        buf[k] := d[k - off];
      }
    }

    /** A read that meets data takes what fits and leaves the rest of the chunk. */
    method ReadChunk(buf: array<byte>, off: nat, n: nat) returns (ret: int, d: seq<byte>)
      requires Valid() && incoming != [] && incoming[0].Chunk? && incoming[0].data != []
      requires 1 <= n && off + n <= buf.Length
      modifies this, buf
      ensures Valid() && outgoing == old(outgoing)
      ensures 1 <= ret == |d| <= n && Next(all, old(pos), d)
      ensures forall k | 0 <= k < buf.Length :: buf[k] == if off <= k < off + |d| then d[k - off] else old(buf[k])
      ensures pos == old(pos) + ret && LogsReads(old(log), log, all, old(pos), pos)
      ensures Pending() < old(Pending())
    {
      var chunk := incoming[0].data;
      var m := Min(|chunk|, n);
      var rest := Leftover(incoming, m);
      ChunkTaken(incoming, m, all, pos);
      TakenAt(chunk, m, all, pos);
      assert Load(rest) < Pending();
      d := chunk[..m];
      hide *;
      Advance(|d|, rest);
      CopyTo(buf, off, d);
      ret := |d|;
    }

    /** The input goes on with rest. */
    method Advance(ghost n: nat, rest: seq<ReadEvent>)
      requires Logged(log, all, pos) && Rest(Tokens(rest), all, pos + n)
      modifies this
      ensures Valid() && incoming == rest && outgoing == old(outgoing)
      ensures pos == old(pos) + n && LogsReads(old(log), log, all, old(pos), pos)
    {
      LogSome(n);
      incoming, lastError := rest, None;
    }

    /** wolfSSL_write: the number of leading bytes accepted; 0 on close, negative on error. */
    method Write(data: seq<byte>) returns (ret: int)
      requires Valid()
      modifies this
      ensures Valid() && pos == old(pos) && incoming == old(incoming)
      ensures -1 <= ret <= |data|
      ensures log == old(log) + Writes(data[..if ret > 0 then ret else 0])
      ensures (ret, outgoing) == WriteReturns(old(outgoing), |data|)
      ensures ret < 0 ==> (lastError == ErrorWantWrite <==> Again(old(outgoing)[0]))
    {
      ret := |data|;
      if outgoing != [] && data != [] {
        var ev := outgoing[0];
        outgoing := outgoing[1..];
        match ev
        case Accept(most) =>
          if most == 0 {
            ret, lastError := -1, ErrorWantWrite;
          } else if most < |data| {
            ret := most;
          }
        case WantWrite => ret, lastError := -1, ErrorWantWrite;
        case WriteClosed => ret, lastError := 0, ErrorZeroReturn;
        case WriteFatal => ret, lastError := -1, ErrorSsl;
      }
      ghost var l0, sent := log, data[..if ret > 0 then ret else 0];
      log := log + Writes(sent);
      LoggedWrites(l0, log, all, pos, sent);
    }
  }
}
