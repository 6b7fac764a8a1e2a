/** The interrupt-driven line assemblers of the echo bots and their bounded,
    lossy message queues. */
module EchoBot {
  import opened Bytes

  const QUEUE_MAX: nat := 10
  const LF: byte := 10
  const CR: byte := 13

  predicate IsEol(c: byte) {
    c == LF || c == CR
  }

  // ---------------------------------------------------------------- what the lines of a byte stream are

  /** Where the first line end at or after i is, or the length of s. */
  function NextEol(s: seq<byte>, i: nat): (e: nat)
    requires i <= |s|
    ensures i <= e <= |s|
    ensures forall k | i <= k < e :: !IsEol(s[k])
    ensures e < |s| ==> IsEol(s[e])
    decreases |s| - i
  {
    if i == |s| || IsEol(s[i]) then i else NextEol(s, i + 1)
  }

  function Cut(s: seq<byte>, n: nat): (t: seq<byte>)
    ensures |t| == Min(|s|, n) && t <= s
  {
    if |s| <= n then s else s[..n]
  }

  /** The complete lines: any first byte, then bytes up to a line end, of which
      the first size - 1 are kept. */
  function Lines(s: seq<byte>, size: nat): seq<seq<byte>>
    requires size >= 2
    decreases |s|
  {
    if s == [] || NextEol(s, 1) == |s| then []
    else [Cut(s[..NextEol(s, 1)], size - 1)] + Lines(s[NextEol(s, 1) + 1..], size)
  }

  /** What is kept of the line that is not complete yet. */
  function Rest(s: seq<byte>, size: nat): (t: seq<byte>)
    requires size >= 2
    ensures |t| < size
    decreases |s|
  {
    if s == [] || NextEol(s, 1) == |s| then Cut(s, size - 1)
    else Rest(s[NextEol(s, 1) + 1..], size)
  }

  lemma NextEolIs(s: seq<byte>, i: nat, e: nat)
    requires i <= e <= |s| && (forall k | i <= k < e :: !IsEol(s[k])) && (e < |s| ==> IsEol(s[e]))
    ensures NextEol(s, i) == e
  {
  }

  lemma Unfold(s: seq<byte>, e: nat, size: nat)
    requires size >= 2 && s != [] && NextEol(s, 1) == e < |s|
    ensures Lines(s, size) == [Cut(s[..e], size - 1)] + Lines(s[e + 1..], size)
    ensures Rest(s, size) == Rest(s[e + 1..], size)
  {
  }

  /** A line that is complete stays so. */
  lemma BehindLine(s: seq<byte>, c: byte, size: nat)
    requires size >= 2 && s != [] && NextEol(s, 1) < |s|
    ensures var e, t := NextEol(s, 1), s + [c];
      && Lines(t, size) == [Cut(s[..e], size - 1)] + Lines(s[e + 1..] + [c], size)
      && Lines(s, size) == [Cut(s[..e], size - 1)] + Lines(s[e + 1..], size)
      && Rest(t, size) == Rest(s[e + 1..] + [c], size) && Rest(s, size) == Rest(s[e + 1..], size)
  {
    var e, t := NextEol(s, 1), s + [c];
    assert t[..e] == s[..e] && t[e + 1..] == s[e + 1..] + [c];
    NextEolIs(t, 1, e);
    hide Lines, Rest, Cut, NextEol, IsEol;
    Unfold(s, e, size);
    Unfold(t, e, size);
  }

  /** One more byte of the first line. */
  lemma InFirstLine(s: seq<byte>, c: byte, size: nat)
    requires size >= 2 && (s == [] || NextEol(s, 1) == |s|)
    ensures Lines(s, size) == [] && Rest(s, size) == Cut(s, size - 1)
    ensures s != [] && IsEol(c) ==> Lines(s + [c], size) == [Cut(s, size - 1)] && Rest(s + [c], size) == []
    ensures s == [] || !IsEol(c) ==> Lines(s + [c], size) == [] && Rest(s + [c], size) == Cut(s + [c], size - 1)
  {
    var t := s + [c];
    if s != [] && IsEol(c) {
      NextEolIs(t, 1, |s|);
      assert t[..|s|] == s && t[|s| + 1..] == [];
    } else {
      NextEolIs(t, 1, |t|);
    }
  }

  lemma CutTwice(s: seq<byte>, c: byte, n: nat)
    ensures Cut(Cut(s, n) + [c], n) == Cut(s + [c], n)
  {
  }

  lemma LinesMore(a: seq<seq<byte>>, b: seq<seq<byte>>, c: seq<seq<byte>>)
    ensures a + (b + c) == (a + b) + c
  {
  }

  /** One more byte ends the pending line, or is kept, or finds no room. */
  lemma {:induction false} OneByteMore(s: seq<byte>, c: byte, size: nat)
    requires size >= 2
    ensures var r := Rest(s, size);
      if (c == 10 || c == 13) && r != [] then Lines(s + [c], size) == Lines(s, size) + [r] && Rest(s + [c], size) == []
      else Lines(s + [c], size) == Lines(s, size) && Rest(s + [c], size) == Cut(r + [c], size - 1)
    decreases |s|
  {
    assert IsEol(c) <==> c == 10 || c == 13;
    if s != [] && NextEol(s, 1) < |s| {
      var e, more := NextEol(s, 1), s[NextEol(s, 1) + 1..];
      hide *;
      BehindLine(s, c, size);
      OneByteMore(more, c, size);
      LinesMore([Cut(s[..e], size - 1)], Lines(more, size), [Rest(more, size)]);
    } else {
      assert [] + [Cut(s, size - 1)] == [Cut(s, size - 1)] && (s != [] ==> Cut(s, size - 1) != []);
      assert s == [] ==> Cut(s, size - 1) == [];
      hide *;
      InFirstLine(s, c, size);
      CutTwice(s, c, size - 1);
    }
  }

  // ---------------------------------------------------------------- what that means for text

  /** A line end at place 0 is an ordinary byte. */
  predicate Plain(line: seq<byte>) {
    forall k | 1 <= k < |line| :: line[k] != 10 && line[k] != 13
  }

  predicate NoEol(line: seq<byte>) {
    forall k | 0 <= k < |line| :: line[k] != 10 && line[k] != 13
  }

  function Terminated(lines: seq<seq<byte>>, eol: seq<byte>): seq<byte> {
    if lines == [] then [] else lines[0] + eol + Terminated(lines[1..], eol)
  }

  lemma FirstLine(s: seq<byte>, line: seq<byte>, c: byte, more: seq<byte>, size: nat)
    requires size >= 2 && line != [] && Plain(line) && IsEol(c) && s == line + [c] + more
    ensures Lines(s, size) == [Cut(line, size - 1)] + Lines(more, size)
    ensures Rest(s, size) == Rest(more, size)
  {
    var n := |line|;
    NextEolIs(s, 1, n);
    assert s[..n] == line && s[n + 1..] == more;
  }

  /** The lines with a prefix, each cut to n bytes. */
  function Cuts(prefix: seq<byte>, lines: seq<seq<byte>>, n: nat): (out: seq<seq<byte>>)
    ensures |out| == |lines| && forall i | 0 <= i < |lines| :: out[i] == Cut(prefix + lines[i], n)
  {
    if lines == [] then [] else [Cut(prefix + lines[0], n)] + Cuts(prefix, lines[1..], n)
  }

  /** Non-empty lines that end in the byte 10, or in the byte 13, come out in order,
      each cut to size - 1. */
  lemma {:induction false} LfLines(lines: seq<seq<byte>>, e: byte, size: nat)
    requires size >= 2 && (e == 10 || e == 13)
    requires forall i | 0 <= i < |lines| :: lines[i] != [] && Plain(lines[i])
    ensures Lines(Terminated(lines, [e]), size) == Cuts([], lines, size - 1)
    ensures Rest(Terminated(lines, [e]), size) == []
    decreases |lines|
  {
    if lines != [] {
      var s, more := Terminated(lines, [e]), Terminated(lines[1..], [e]);
      assert [] + lines[0] == lines[0];
      FirstLine(s, lines[0], e, more, size);
      LfLines(lines[1..], e, size);
    }
  }

  /** When they fit, they come out unchanged. */
  lemma LfUnchanged(lines: seq<seq<byte>>, e: byte, size: nat)
    requires size >= 2 && (e == 10 || e == 13)
    requires forall i | 0 <= i < |lines| :: 0 < |lines[i]| < size && Plain(lines[i])
    ensures Lines(Terminated(lines, [e]), size) == lines
  {
    LfLines(lines, e, size);
    assert forall i | 0 <= i < |lines| :: [] + lines[i] == lines[i];
  }

  lemma CrLfStep(lines: seq<seq<byte>>)
    requires lines != []
    ensures [10] + Terminated(lines, [13, 10]) == ([10] + lines[0]) + [13] + ([10] + Terminated(lines[1..], [13, 10]))
  {
    assert [13, 10] == [13] + [10];
  }

  /** The LF of a CRLF starts the next line. */
  lemma {:induction false} AfterCr(lines: seq<seq<byte>>, size: nat)
    requires size >= 2 && forall i | 0 <= i < |lines| :: NoEol(lines[i])
    ensures Lines([10] + Terminated(lines, [13, 10]), size) == Cuts([10], lines, size - 1)
    ensures Rest([10] + Terminated(lines, [13, 10]), size) == [10]
    decreases |lines|
  {
    var s := [10] + Terminated(lines, [13, 10]);
    if lines == [] {
      assert s == [10] && NextEol(s, 1) == 1;
    } else {
      var line, more := [10] + lines[0], [10] + Terminated(lines[1..], [13, 10]);
      CrLfStep(lines);
      assert NoEol(lines[0]) && Plain(line) && IsEol(13);
      hide Lines, Rest, Terminated, Plain, NoEol;
      FirstLine(s, line, 13, more, size);
      AfterCr(lines[1..], size);
    }
  }

  /** So CRLF text comes out with an LF before every line but the first, and one
      more LF is pending at the end. */
  lemma CrLfLines(first: seq<byte>, lines: seq<seq<byte>>, size: nat)
    requires size >= 2 && first != [] && Plain(first) && forall i | 0 <= i < |lines| :: NoEol(lines[i])
    ensures Lines(Terminated([first] + lines, [13, 10]), size) == [Cut(first, size - 1)] + Cuts([10], lines, size - 1)
    ensures Rest(Terminated([first] + lines, [13, 10]), size) == [10]
  {
    var all, more := [first] + lines, [10] + Terminated(lines, [13, 10]);
    assert all[1..] == lines;
    assert Terminated(all, [13, 10]) == first + [13] + more;
    FirstLine(Terminated(all, [13, 10]), first, 13, more, size);
    AfterCr(lines, size);
  }

  // ---------------------------------------------------------------- the queue

  /** The messages with fate true, in order. */
  function Kept(msgs: seq<seq<byte>>, fate: seq<bool>): (k: seq<seq<byte>>)
    requires |msgs| == |fate|
    ensures |k| <= |msgs|
    decreases |msgs|
  {
    if msgs == [] then []
    else Kept(msgs[..|msgs| - 1], fate[..|msgs| - 1]) + if fate[|msgs| - 1] then [msgs[|msgs| - 1]] else []
  }

  function Count(fate: seq<bool>, b: bool): nat {
    if fate == [] then 0 else Count(fate[..|fate| - 1], b) + if fate[|fate| - 1] == b then 1 else 0
  }

  lemma {:induction false} Conserved(msgs: seq<seq<byte>>, fate: seq<bool>)
    requires |msgs| == |fate|
    ensures |Kept(msgs, fate)| == Count(fate, true) && Count(fate, true) + Count(fate, false) == |msgs|
    decreases |msgs|
  {
    if msgs != [] {
      Conserved(msgs[..|msgs| - 1], fate[..|msgs| - 1]);
    }
  }

  /** The places of true. */
  function Positions(fate: seq<bool>): (at: seq<nat>)
    ensures forall j | 0 <= j < |at| :: at[j] < |fate| && fate[at[j]]
    ensures forall i, j | 0 <= i < j < |at| :: at[i] < at[j]
    decreases |fate|
  {
    if fate == [] then []
    else Positions(fate[..|fate| - 1]) + if fate[|fate| - 1] then [|fate| - 1] else []
  }

  lemma {:induction false} AllPositions(fate: seq<bool>, i: nat)
    requires i < |fate| && fate[i]
    ensures i in Positions(fate)
    decreases |fate|
  {
    if i < |fate| - 1 {
      AllPositions(fate[..|fate| - 1], i);
    }
  }

  /** The kept messages are the others left out, in the order of completion. */
  lemma {:induction false} KeptInOrder(msgs: seq<seq<byte>>, fate: seq<bool>)
    requires |msgs| == |fate|
    ensures |Kept(msgs, fate)| == |Positions(fate)|
    ensures forall j | 0 <= j < |Positions(fate)| :: Kept(msgs, fate)[j] == msgs[Positions(fate)[j]]
    decreases |msgs|
  {
    if msgs != [] {
      KeptInOrder(msgs[..|msgs| - 1], fate[..|msgs| - 1]);
    }
  }

  lemma KeptMore(msgs: seq<seq<byte>>, fate: seq<bool>, m: seq<byte>, b: bool)
    requires |msgs| == |fate|
    ensures Kept(msgs + [m], fate + [b]) == Kept(msgs, fate) + if b then [m] else []
    ensures Count(fate + [b], true) == Count(fate, true) + if b then 1 else 0
  {
    assert (msgs + [m])[..|msgs|] == msgs && (fate + [b])[..|fate|] == fate;
  }

  /** A message queue with its history: the messages pending and taken, all that
      were ever put, whether each was queued, and how many had been taken then. */
  datatype Queue = Queue(pending: seq<seq<byte>>, taken: seq<seq<byte>>, all: seq<seq<byte>>, fate: seq<bool>,
                         takenAt: seq<nat>) {
    /** k_msgq_put without waiting: a full queue drops the message. */
    function Put(m: seq<byte>): Queue {
      var room := |pending| < QUEUE_MAX;
      Queue(if room then pending + [m] else pending, taken, all + [m], fate + [room], takenAt + [|taken|])
    }

    /** k_msgq_get: the oldest message, if there is one. */
    function Take(): Queue {
      if pending == [] then this else this.(pending := pending[1..], taken := taken + [pending[0]])
    }

    /** How many messages were pending when message i was put: those queued so far
        less those taken so far. */
    function PendingAt(i: nat): int
      requires i < |fate| == |takenAt|
    {
      Count(fate[..i], true) - takenAt[i]
    }

    /** What was taken and what is pending are the queued messages in the order in
        which they were put; at most ten are pending, and a message was dropped
        exactly if ten were. */
    ghost predicate Conserving() {
      && |fate| == |takenAt| == |all|
      && taken + pending == Kept(all, fate)
      && |pending| <= QUEUE_MAX
      && forall i: nat | i < |fate| :: 0 <= PendingAt(i) <= QUEUE_MAX && (fate[i] <==> PendingAt(i) < QUEUE_MAX)
    }
  }

  const EMPTY_QUEUE := Queue([], [], [], [], [])

  lemma PutConserves(q: Queue, m: seq<byte>)
    requires q.Conserving()
    ensures q.Put(m).Conserving()
  {
    var p, room, n := q.Put(m), |q.pending| < QUEUE_MAX, |q.fate|;
    KeptMore(q.all, q.fate, m, room);
    Conserved(q.all, q.fate);
    assert q.taken + (q.pending + [m]) == (q.taken + q.pending) + [m];
    forall i: nat | i < |p.fate|
      ensures 0 <= p.PendingAt(i) <= QUEUE_MAX && (p.fate[i] <==> p.PendingAt(i) < QUEUE_MAX)
    {
      assert p.fate[..i] == q.fate[..i];
      if i == n {
        assert q.fate[..n] == q.fate;
      } else {
        assert p.PendingAt(i) == q.PendingAt(i);
      }
    }
  }

  lemma TakeConserves(q: Queue)
    requires q.Conserving()
    ensures q.Take().Conserving()
  {
    var p := q.Take();
    if q.pending != [] {
      assert p.taken + p.pending == q.taken + q.pending;
      forall i: nat | i < |p.fate|
        ensures p.PendingAt(i) == q.PendingAt(i)
      {
      }
    }
  }

  function PutAll(q: Queue, ms: seq<seq<byte>>): Queue {
    if ms == [] then q else PutAll(q, ms[..|ms| - 1]).Put(ms[|ms| - 1])
  }

  lemma PutOneMore(q: Queue, ms: seq<seq<byte>>, m: seq<byte>)
    ensures PutAll(q, ms + [m]) == PutAll(q, ms).Put(m)
  {
    assert (ms + [m])[..|ms|] == ms;
  }

  lemma Snoc<T>(a: seq<T>, b: seq<T>, m: T, ms: seq<T>)
    requires |ms| > 0 && b == ms[..|ms| - 1] && m == ms[|ms| - 1]
    ensures a + ms == (a + b) + [m]
  {
  }

  lemma {:induction false} PutAllConserves(q: Queue, ms: seq<seq<byte>>)
    requires q.Conserving()
    ensures PutAll(q, ms).Conserving() && PutAll(q, ms).all == q.all + ms
  {
    if ms == [] {
      assert q.all + ms == q.all;
    } else {
      var pre, m := ms[..|ms| - 1], ms[|ms| - 1];
      var p := PutAll(q, pre);
      hide Queue.Conserving, Queue.PendingAt;
      PutAllConserves(q, pre);
      PutConserves(p, m);
      assert PutAll(q, ms) == p.Put(m);
      Snoc(q.all, pre, m, ms);
    }
  }

  lemma CountNext(fate: seq<bool>, n: nat)
    requires 0 < n <= |fate|
    ensures Count(fate[..n], true) == Count(fate[..n - 1], true) + if fate[n - 1] then 1 else 0
  {
    assert fate[..n][..n - 1] == fate[..n - 1];
  }

  /** If never more than ten messages were unread, none was dropped. */
  lemma {:induction false} NoneDropped(q: Queue, n: nat)
    requires q.Conserving() && n <= |q.fate| && forall i: nat | i < |q.fate| :: i - q.takenAt[i] < QUEUE_MAX
    ensures Count(q.fate[..n], true) == n && forall i | 0 <= i < n :: q.fate[i]
  {
    if n > 0 {
      NoneDropped(q, n - 1);
      hide Kept, Count;
      assert q.PendingAt(n - 1) == n - 1 - q.takenAt[n - 1];
      CountNext(q.fate, n);
    }
  }

  lemma {:induction false} AllCounted(fate: seq<bool>)
    requires Count(fate, true) >= |fate|
    ensures Count(fate, true) == |fate|
    ensures forall i: nat | i < |fate| :: fate[i] && Count(fate[..i], true) == i
    decreases |fate|
  {
    if fate != [] {
      var pre := fate[..|fate| - 1];
      AllCounted(pre);
      assert forall i: nat | i < |pre| :: fate[i] == pre[i] && fate[..i] == pre[..i];
    }
  }

  lemma {:induction false} KeptWhole(msgs: seq<seq<byte>>, fate: seq<bool>)
    requires |msgs| == |fate| && forall i | 0 <= i < |fate| :: fate[i]
    ensures Kept(msgs, fate) == msgs
    decreases |msgs|
  {
    if msgs != [] {
      KeptWhole(msgs[..|msgs| - 1], fate[..|msgs| - 1]);
    }
  }

  /** The text before the first NUL, which is all that is printed of a buffer. */
  function CString(buf: seq<byte>): (t: seq<byte>)
    ensures 0 !in t && |t| <= |buf|
    ensures |t| < |buf| ==> buf[|t|] == 0
    ensures t <= buf
  {
    if buf == [] || buf[0] == 0 then [] else [buf[0]] + CString(buf[1..])
  }

  lemma {:induction false} CStringOf(line: seq<byte>, tail: seq<byte>)
    ensures CString(line + [0] + tail) == CString(line)
    decreases |line|
  {
    var b := line + [0] + tail;
    if line != [] && line[0] != 0 {
      assert b[1..] == line[1..] + [0] + tail;
      CStringOf(line[1..], tail);
    }
  }

  lemma {:induction false} NoNul(line: seq<byte>)
    requires 0 !in line
    ensures CString(line) == line
  {
    if line != [] {
      NoNul(line[1..]);
      assert line == [line[0]] + line[1..];
    }
  }

  // ---------------------------------------------------------------- one device

  /** buf is a whole message buffer with the given line in it. */
  predicate HasLine(buf: seq<byte>, line: seq<byte>) {
    |line| < |buf| && line <= buf && buf[|line|] == 0
  }

  predicate HaveLines(bufs: seq<seq<byte>>, lines: seq<seq<byte>>) {
    |bufs| == |lines| && forall i | 0 <= i < |bufs| :: HasLine(bufs[i], lines[i])
  }

  lemma TextOfBuffer(buf: seq<byte>, line: seq<byte>)
    requires HasLine(buf, line)
    ensures CString(buf) == CString(line)
    ensures 0 !in line ==> CString(buf) == line
  {
    assert buf == line + [0] + buf[|line| + 1..];
    CStringOf(line, buf[|line| + 1..]);
    if 0 !in line {
      NoNul(line);
    }
  }

  lemma {:induction false} LinesGrow(s: seq<byte>, t: seq<byte>, size: nat)
    requires size >= 2
    ensures Lines(s, size) <= Lines(s + t, size)
    decreases |t|
  {
    if t == [] {
      assert s + t == s;
    } else {
      var u := t[..|t| - 1];
      LinesGrow(s, u, size);
      OneByteMore(s + u, t[|t| - 1], size);
      assert (s + u) + [t[|t| - 1]] == s + t;
    }
  }

  /** The lines that are completed between two moments. */
  function NewLines(before: seq<byte>, after: seq<byte>, size: nat): seq<seq<byte>>
    requires size >= 2
  {
    if |Lines(before, size)| <= |Lines(after, size)| then Lines(after, size)[|Lines(before, size)|..] else []
  }

  lemma NewLinesOne(s: seq<byte>, u: seq<byte>, c: byte, size: nat)
    requires size >= 2 && Lines(s, size) <= Lines(u, size)
    ensures Lines(s, size) <= Lines(u + [c], size)
    ensures NewLines(s, u + [c], size)
         == NewLines(s, u, size) + if IsEol(c) && Rest(u, size) != [] then [Rest(u, size)] else []
  {
    OneByteMore(u, c, size);
  }

  /** What one more byte does to the queue of a device that has heard s. */
  function QueueAfter(q: Queue, s: seq<byte>, c: byte, size: nat): Queue
    requires size >= 2
  {
    if IsEol(c) && Rest(s, size) != [] then q.Put(Rest(s, size)) else q
  }

  /** A receive buffer and its queue. The ghost fields are the bytes heard so far
      and the queue of the lines that are in the buffers of the real one. */
  class Line {
    const rxBuf: array<byte>
    var rxPos: nat
    var queue: seq<seq<byte>>
    ghost var heard: seq<byte>
    ghost var q: Queue

    ghost predicate Valid()
      reads this, rxBuf
    {
      && rxBuf.Length >= 2 && rxPos < rxBuf.Length
      && rxBuf[..rxPos] == Rest(heard, rxBuf.Length)
      && HaveLines(queue, q.pending)
      && q.Conserving() && q.all == Lines(heard, rxBuf.Length)
    }

    ghost predicate Idle()
      reads this
    {
      heard == [] && q == EMPTY_QUEUE
    }

    constructor (size: nat)
      requires size >= 2
      ensures Valid() && fresh(rxBuf) && rxBuf.Length == size && Idle()
    {
      rxBuf := new byte[size](_ => 0);
      rxPos, queue, heard, q := 0, [], [], EMPTY_QUEUE;
    }

    /** k_msgq_put of the receive buffer, without waiting. */
    method Put(ghost line: seq<byte>)
      requires HaveLines(queue, q.pending) && HasLine(rxBuf[..], line) && q.Conserving()
      modifies `queue, `q
      ensures HaveLines(queue, q.pending) && q == old(q).Put(line) && q.Conserving()
    {
      PutConserves(q, line);
      if |queue| < QUEUE_MAX {
        queue := queue + [rxBuf[..]];
      }
      q := q.Put(line);
    }

    /** One byte from the FIFO. */
    method Byte(c: byte)
      requires Valid()
      modifies this, rxBuf
      ensures Valid() && heard == old(heard) + [c] && q == QueueAfter(old(q), old(heard), c, rxBuf.Length)
    {
      ghost var size, rest := rxBuf.Length, rxBuf[..rxPos];
      OneByteMore(heard, c, size);
      if IsEol(c) && rxPos > 0 {
        rxBuf[rxPos] := 0;
        assert rest <= rxBuf[..];
        Put(rest);
        rxPos := 0;
      } else if rxPos < rxBuf.Length - 1 {
        rxBuf[rxPos] := c;
        rxPos := rxPos + 1;
        assert rxBuf[..rxPos] == rest + [c];
      } else {
        assert Cut(rest + [c], size - 1) == rest;
      }
      heard := heard + [c];
    }

    /** serial_cb: the FIFO is read until it is empty, and every line that is
        completed is put into the queue. */
    method SerialCb(update: bool, rxReady: bool, fifo: seq<byte>) returns (left: seq<byte>)
      requires Valid()
      modifies this, rxBuf
      ensures Valid()
      ensures left == if update && rxReady then [] else fifo
      ensures heard == old(heard) + (if update && rxReady then fifo else [])
      ensures q == PutAll(old(q), NewLines(old(heard), heard, rxBuf.Length))
    {
      hide Lines, Rest, Queue.Conserving;
      left := fifo;
      ghost var s, q0, size := heard, q, rxBuf.Length;
      NoNewLines(q0, s, size);
      if !update || !rxReady {
        assert heard + [] == heard;
        return;
      }
      while left != []
        invariant Valid() && heard + left == s + fifo
        invariant Lines(s, size) <= Lines(heard, size) && q == PutAll(q0, NewLines(s, heard, size))
        decreases |left|
      {
        ghost var u := heard;
        var c := left[0];
        Byte(c);
        OneByteQueued(q0, s, u, c, size);
        assert u + left == (u + [c]) + left[1..];
        left := left[1..];
      }
      assert heard + [] == heard;
    }

    /** The consumer takes a message, if there is one, and prints it. */
    method Echo(prefix: seq<byte>) returns (printed: seq<byte>)
      requires Valid()
      modifies this
      ensures Valid() && heard == old(heard) && q == old(q).Take()
      ensures printed == if old(q).pending == [] then [] else Echoed(prefix, old(q).pending[0])
    {
      TakeConserves(q);
      if queue == [] {
        return [];
      }
      TextOfBuffer(queue[0], q.pending[0]);
      printed := prefix + CString(queue[0]) + [CR, LF];
      queue := queue[1..];
      q := q.Take();
    }
  }

  /** The line, as far as it is printed, between a prefix and a line end. */
  function Echoed(prefix: seq<byte>, line: seq<byte>): seq<byte> {
    prefix + CString(line) + [CR, LF]
  }

  lemma NoNewLines(q: Queue, s: seq<byte>, size: nat)
    requires size >= 2
    ensures Lines(s, size) <= Lines(s, size) && PutAll(q, NewLines(s, s, size)) == q
  {
  }

  lemma OneByteQueued(q0: Queue, s: seq<byte>, u: seq<byte>, c: byte, size: nat)
    requires size >= 2 && Lines(s, size) <= Lines(u, size)
    ensures Lines(s, size) <= Lines(u + [c], size)
    ensures PutAll(q0, NewLines(s, u + [c], size)) == QueueAfter(PutAll(q0, NewLines(s, u, size)), u, c, size)
  {
    var ms := NewLines(s, u, size);
    NewLinesOne(s, u, c, size);
    if IsEol(c) && Rest(u, size) != [] {
      PutOneMore(q0, ms, Rest(u, size));
    } else {
      assert ms + [] == ms;
    }
  }

  // ---------------------------------------------------------------- the two programs

  const MSG_SIZE_ONE: nat := 32
  const MSG_SIZE_TWO: nat := 64

  const ECHO_PREFIX: seq<byte> := [0x45, 0x63, 0x68, 0x6F, 0x3A, 0x20]
  const UART1_PREFIX: seq<byte> := [0x55, 0x41, 0x52, 0x54, 0x31, 0x3A, 0x20]

  datatype Device = Uart0 | Uart1 | OtherDevice

  /** An interrupt of a device with what is in its FIFO, or the consumer's turn. */
  datatype Op = Interrupt(dev: Device, update: bool, rxReady: bool, fifo: seq<byte>) | Turn

  function FifoOf(op: Op, dev: Device): seq<byte> {
    match op
    case Interrupt(d, update, rxReady, fifo) => if d == dev && update && rxReady then fifo else []
    case Turn => []
  }

  /** The bytes a device hands over in the course of ops. */
  function HandedOver(ops: seq<Op>, dev: Device): seq<byte> {
    if ops == [] then [] else HandedOver(ops[..|ops| - 1], dev) + FifoOf(ops[|ops| - 1], dev)
  }

  /** What is printed for a list of lines. */
  function Echoes(prefix: seq<byte>, lines: seq<seq<byte>>): seq<byte> {
    if lines == [] then [] else Echoes(prefix, lines[..|lines| - 1]) + Echoed(prefix, lines[|lines| - 1])
  }

  lemma EchoesMore(prefix: seq<byte>, lines: seq<seq<byte>>, line: seq<byte>)
    ensures Echoes(prefix, lines + [line]) == Echoes(prefix, lines) + Echoed(prefix, line)
  {
    assert (lines + [line])[..|lines|] == lines;
  }

  lemma OpsPrefix(ops: seq<Op>, i: nat)
    requires i < |ops|
    ensures forall dev :: HandedOver(ops[..i + 1], dev) == HandedOver(ops[..i], dev) + FifoOf(ops[i], dev)
  {
    assert ops[..i + 1][..i] == ops[..i];
  }

  /** The queue of a device after an interleaving of interrupts and consumer turns:
      an interrupt puts the lines that it completes, a turn takes one message if
      this is the device that the consumer serves. */
  function QueueRun(ops: seq<Op>, dev: Device, served: bool, size: nat): Queue
    requires size >= 2
  {
    if ops == [] then EMPTY_QUEUE
    else
      var pre := ops[..|ops| - 1];
      var q := QueueRun(pre, dev, served, size);
      if ops[|ops| - 1].Interrupt? then PutAll(q, NewLines(HandedOver(pre, dev), HandedOver(ops, dev), size))
      else if served then q.Take()
      else q
  }

  lemma QueueRunMore(ops: seq<Op>, i: nat, dev: Device, served: bool, size: nat)
    requires size >= 2 && i < |ops|
    ensures var q := QueueRun(ops[..i], dev, served, size);
      QueueRun(ops[..i + 1], dev, served, size)
      == if ops[i].Interrupt? then PutAll(q, NewLines(HandedOver(ops[..i], dev), HandedOver(ops[..i + 1], dev), size))
         else if served then q.Take() else q
  {
    assert ops[..i + 1][..i] == ops[..i];
  }

  lemma InterruptConserves(q: Queue, h0: seq<byte>, h1: seq<byte>, size: nat)
    requires size >= 2 && q.Conserving() && q.all == Lines(h0, size) && h0 <= h1
    ensures var q' := PutAll(q, NewLines(h0, h1, size)); q'.Conserving() && q'.all == Lines(h1, size)
  {
    assert h0 + h1[|h0|..] == h1;
    hide Queue.Conserving, Lines, Rest, PutAll;
    LinesGrow(h0, h1[|h0|..], size);
    PutAllConserves(q, NewLines(h0, h1, size));
  }

  lemma HandedOverGrows(ops: seq<Op>, dev: Device)
    requires ops != []
    ensures HandedOver(ops[..|ops| - 1], dev) <= HandedOver(ops, dev)
    ensures ops[|ops| - 1].Turn? ==> HandedOver(ops[..|ops| - 1], dev) == HandedOver(ops, dev)
  {
  }

  /** Over any interleaving: the messages put are the lines of the device's own
      bytes; what was taken and what is pending are those that were queued, in
      order; at most ten are pending; and a line was dropped exactly if ten were
      pending when it was completed. */
  lemma {:induction false} QueueConserves(ops: seq<Op>, dev: Device, served: bool, size: nat)
    requires size >= 2
    ensures var q := QueueRun(ops, dev, served, size);
      && q.Conserving() && q.all == Lines(HandedOver(ops, dev), size)
      && |q.pending| <= 10 && (forall i: nat | i < |q.fate| :: q.fate[i] <==> q.PendingAt(i) < 10)
      && |q.taken| + |q.pending| + Count(q.fate, false) == |q.all|
    decreases |ops|
  {
    var q := QueueRun(ops, dev, served, size);
    if ops != [] {
      var pre := ops[..|ops| - 1];
      var q0 := QueueRun(pre, dev, served, size);
      hide Queue.Conserving, Lines, HandedOver, Count, PutAll, NewLines;
      QueueConserves(pre, dev, served, size);
      HandedOverGrows(ops, dev);
      InterruptConserves(q0, HandedOver(pre, dev), HandedOver(ops, dev), size);
      TakeConserves(q0);
    }
    QueueCounts(q);
  }

  lemma QueueCounts(q: Queue)
    requires q.Conserving()
    ensures |q.taken| + |q.pending| + Count(q.fate, false) == |q.all|
  {
    Conserved(q.all, q.fate);
    assert |q.taken + q.pending| == |q.taken| + |q.pending|;
  }

  /** Every line was echoed or is still pending, in order, if and only if fewer
      than ten earlier lines were unread whenever one was completed. */
  lemma NothingLost(ops: seq<Op>, dev: Device, served: bool, size: nat)
    requires size >= 2
    ensures var q := QueueRun(ops, dev, served, size);
      q.taken + q.pending == Lines(HandedOver(ops, dev), size)
      <==> forall i: nat | i < |q.takenAt| :: i - q.takenAt[i] < 10
  {
    QueueConserves(ops, dev, served, size);
    var q := QueueRun(ops, dev, served, size);
    WholeExactly(q);
  }

  lemma WholeExactly(q: Queue)
    requires q.Conserving()
    ensures q.taken + q.pending == q.all <==> forall i: nat | i < |q.takenAt| :: i - q.takenAt[i] < QUEUE_MAX
  {
    Conserved(q.all, q.fate);
    if forall i: nat | i < |q.takenAt| :: i - q.takenAt[i] < QUEUE_MAX {
      NoneDropped(q, |q.fate|);
      KeptWhole(q.all, q.fate);
    }
    if q.taken + q.pending == q.all {
      AllCounted(q.fate);
      forall i: nat | i < |q.takenAt|
        ensures i - q.takenAt[i] < QUEUE_MAX
      {
        assert q.PendingAt(i) == i - q.takenAt[i];
      }
    }
  }

  /** A line that came before its end, and a turn of the consumer. */
  function LineAndTurn(dev: Device, line: seq<byte>, e: byte): seq<Op> {
    [Interrupt(dev, true, true, line + [e]), Turn]
  }

  lemma OneTaken(dev: Device, line: seq<byte>, e: byte, size: nat)
    requires size >= 2 && line != [] && Plain(line) && (e == 10 || e == 13)
    ensures QueueRun(LineAndTurn(dev, line, e), dev, true, size).taken == [Cut(line, size - 1)]
  {
    var ops, s, cut := LineAndTurn(dev, line, e), line + [e], Cut(line, size - 1);
    assert ops[..1] == [ops[0]] && ops[..1][..0] == [];
    assert HandedOver(ops[..0], dev) == [] && HandedOver(ops[..1], dev) == [] + s == s;
    assert s == line + [e] + [];
    FirstLine(s, line, e, [], size);
    assert Lines([], size) == [];
    assert NewLines([], s, size) == [cut];
    assert PutAll(EMPTY_QUEUE, [cut]) == EMPTY_QUEUE.Put(cut);
    assert QueueRun(ops[..1], dev, true, size) == EMPTY_QUEUE.Put(cut);
  }

  /** The text, byte by byte. */
  predicate Spells(s: seq<byte>, t: string) {
    |s| == |t| && forall i | 0 <= i < |s| :: s[i] == t[i] as int
  }

  lemma Prefixes()
    ensures Spells(ECHO_PREFIX, "Echo: ") && Spells(UART1_PREFIX, "UART1: ")
  {
    assert "Echo: "[0] == 'E' && "Echo: "[1] == 'c' && "Echo: "[2] == 'h' && "Echo: "[3] == 'o';
    assert "UART1: "[0] == 'U' && "UART1: "[1] == 'A' && "UART1: "[2] == 'R' && "UART1: "[3] == 'T';
  }

  lemma OneEchoed(prefix: seq<byte>, dev: Device, line: seq<byte>, e: byte, size: nat, text: seq<byte>)
    requires size >= 2 && line != [] && Plain(line) && 0 !in line && (e == 10 || e == 13)
    requires text == Cut(line, size - 1)
    ensures Echoes(prefix, QueueRun(LineAndTurn(dev, line, e), dev, true, size).taken) == prefix + text + [13, 10]
  {
    OneTaken(dev, line, e, size);
    NoNul(text);
    assert Echoed(prefix, text) == prefix + text + [13, 10] && [] + [text] == [text];
    assert Echoes(prefix, []) + Echoed(prefix, text) == Echoed(prefix, text);
    hide *;
    EchoesMore(prefix, [], text);
  }

  /** What the bots print for a line without NUL, of which they keep 31 or 63 bytes. */
  lemma LineEchoed(line: seq<byte>, e: byte)
    requires line != [] && Plain(line) && 0 !in line && (e == 10 || e == 13)
    ensures Echoes(ECHO_PREFIX, QueueRun(LineAndTurn(Uart0, line, e), Uart0, true, MSG_SIZE_ONE).taken)
         == ECHO_PREFIX + line[..Min(|line|, 31)] + [13, 10]
    ensures Echoes(UART1_PREFIX, QueueRun(LineAndTurn(Uart1, line, e), Uart1, true, MSG_SIZE_TWO).taken)
         == UART1_PREFIX + line[..Min(|line|, 63)] + [13, 10]
  {
    assert Cut(line, MSG_SIZE_ONE - 1) == line[..Min(|line|, 31)];
    assert Cut(line, MSG_SIZE_TWO - 1) == line[..Min(|line|, 63)];
    hide *;
    OneEchoed(ECHO_PREFIX, Uart0, line, e, MSG_SIZE_ONE, line[..Min(|line|, 31)]);
    OneEchoed(UART1_PREFIX, Uart1, line, e, MSG_SIZE_TWO, line[..Min(|line|, 63)]);
  }

  lemma TurnEchoes(prefix: seq<byte>, q: Queue, printed: seq<byte>, out: seq<byte>)
    requires printed == Echoes(prefix, q.taken)
    requires out == if q.pending == [] then [] else Echoed(prefix, q.pending[0])
    ensures printed + out == Echoes(prefix, q.Take().taken)
  {
    if q.pending == [] {
      assert printed + out == printed;
    } else {
      EchoesMore(prefix, q.taken, q.pending[0]);
    }
  }

  lemma StartOfRun(dev: Device, served: bool, size: nat)
    requires size >= 2
    ensures HandedOver([], dev) == [] && QueueRun([], dev, served, size) == EMPTY_QUEUE
  {
  }

  lemma NoEchoes(prefix: seq<byte>)
    ensures Echoes(prefix, []) == []
  {
  }

  /** The bot with one UART: any interleaving of interrupts and consumer turns. */
  method RunOne(line: Line, ops: seq<Op>) returns (printed: seq<byte>)
    requires line.Valid() && line.rxBuf.Length == MSG_SIZE_ONE && line.Idle()
    requires forall i | 0 <= i < |ops| :: ops[i].Interrupt? ==> ops[i].dev == Uart0
    modifies line, line.rxBuf
    ensures line.Valid() && line.heard == HandedOver(ops, Uart0)
    ensures line.q == QueueRun(ops, Uart0, true, MSG_SIZE_ONE)
    ensures printed == Echoes(ECHO_PREFIX, QueueRun(ops, Uart0, true, MSG_SIZE_ONE).taken)
  {
    hide QueueRun, PutAll, NewLines, HandedOver, Lines, Rest, Echoes, Queue.Conserving, HaveLines;
    printed := [];
    StartOfRun(Uart0, true, MSG_SIZE_ONE);
    NoEchoes(ECHO_PREFIX);
    assert ops[..0] == [];
    for i := 0 to |ops|
      invariant line.Valid() && line.heard == HandedOver(ops[..i], Uart0)
      invariant line.q == QueueRun(ops[..i], Uart0, true, MSG_SIZE_ONE)
      invariant printed == Echoes(ECHO_PREFIX, line.q.taken)
    {
      OpsPrefix(ops, i);
      QueueRunMore(ops, i, Uart0, true, MSG_SIZE_ONE);
      ghost var q := line.q;
      match ops[i]
      case Interrupt(_, update, rxReady, fifo) =>
        var left := line.SerialCb(update, rxReady, fifo);
        PutAllTaken(q, NewLines(HandedOver(ops[..i], Uart0), line.heard, MSG_SIZE_ONE));
      case Turn =>
        var out := line.Echo(ECHO_PREFIX);
        TurnEchoes(ECHO_PREFIX, q, printed, out);
        printed := printed + out;
    }
    assert ops[..|ops|] == ops;
  }

  lemma {:induction false} PutAllTaken(q: Queue, ms: seq<seq<byte>>)
    ensures PutAll(q, ms).taken == q.taken
  {
    if ms != [] {
      PutAllTaken(q, ms[..|ms| - 1]);
    }
  }

  class TwoUarts {
    const line0: Line
    const line1: Line

    ghost predicate Valid()
      reads this, line0, line0.rxBuf, line1, line1.rxBuf
    {
      && line0 != line1 && line0.rxBuf != line1.rxBuf && line0.Valid() && line1.Valid()
      && line0.rxBuf.Length == line1.rxBuf.Length == MSG_SIZE_TWO
    }

    constructor ()
      ensures Valid() && fresh(line0) && fresh(line0.rxBuf) && fresh(line1) && fresh(line1.rxBuf)
      ensures line0.Idle() && line1.Idle()
    {
      line0 := new Line(MSG_SIZE_TWO);
      line1 := new Line(MSG_SIZE_TWO);
    }

    /** serial_cb for either device. */
    method SerialCb(dev: Device, update: bool, rxReady: bool, fifo: seq<byte>)
      requires Valid()
      modifies line0, line0.rxBuf, line1, line1.rxBuf
      ensures Valid()
      ensures line0.heard == old(line0.heard) + (if dev == Uart0 && update && rxReady then fifo else [])
      ensures line1.heard == old(line1.heard) + (if dev == Uart1 && update && rxReady then fifo else [])
      ensures line0.q == PutAll(old(line0.q), NewLines(old(line0.heard), line0.heard, MSG_SIZE_TWO))
      ensures line1.q == PutAll(old(line1.q), NewLines(old(line1.heard), line1.heard, MSG_SIZE_TWO))
    {
      NoNewLines(line0.q, line0.heard, MSG_SIZE_TWO);
      NoNewLines(line1.q, line1.heard, MSG_SIZE_TWO);
      assert line0.heard + [] == line0.heard && line1.heard + [] == line1.heard;
      if dev == Uart0 {
        var left := line0.SerialCb(update, rxReady, fifo);
      } else if dev == Uart1 {
        var left := line1.SerialCb(update, rxReady, fifo);
      }
    }

    /** Any interleaving of interrupts and consumer turns, from the start. The
        consumer serves the second device only. */
    method Run(ops: seq<Op>) returns (printed: seq<byte>)
      requires Valid() && line0.Idle() && line1.Idle()
      modifies line0, line0.rxBuf, line1, line1.rxBuf
      ensures Valid()
      ensures line0.heard == HandedOver(ops, Uart0) && line1.heard == HandedOver(ops, Uart1)
      ensures line0.q == QueueRun(ops, Uart0, false, MSG_SIZE_TWO)
      ensures line1.q == QueueRun(ops, Uart1, true, MSG_SIZE_TWO)
      ensures printed == Echoes(UART1_PREFIX, QueueRun(ops, Uart1, true, MSG_SIZE_TWO).taken)
    {
      hide QueueRun, PutAll, NewLines, HandedOver, Lines, Rest, Echoes, Queue.Conserving, HaveLines;
      printed := [];
      assert ops[..0] == [];
      StartOfRun(Uart0, false, MSG_SIZE_TWO);
      StartOfRun(Uart1, true, MSG_SIZE_TWO);
      NoEchoes(UART1_PREFIX);
      for i := 0 to |ops|
        invariant Valid() && line0.heard == HandedOver(ops[..i], Uart0) && line1.heard == HandedOver(ops[..i], Uart1)
        invariant line0.q == QueueRun(ops[..i], Uart0, false, MSG_SIZE_TWO)
        invariant line1.q == QueueRun(ops[..i], Uart1, true, MSG_SIZE_TWO)
        invariant printed == Echoes(UART1_PREFIX, line1.q.taken)
      {
        OpsPrefix(ops, i);
        QueueRunMore(ops, i, Uart0, false, MSG_SIZE_TWO);
        QueueRunMore(ops, i, Uart1, true, MSG_SIZE_TWO);
        ghost var q := line1.q;
        match ops[i]
        case Interrupt(dev, update, rxReady, fifo) =>
          SerialCb(dev, update, rxReady, fifo);
          PutAllTaken(q, NewLines(HandedOver(ops[..i], Uart1), line1.heard, MSG_SIZE_TWO));
        case Turn =>
          var out := line1.Echo(UART1_PREFIX);
          TurnEchoes(UART1_PREFIX, q, printed, out);
          printed := printed + out;
      }
      assert ops[..|ops|] == ops;
    }
  }
}
