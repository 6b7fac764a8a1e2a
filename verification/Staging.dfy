/** What the driver and the caller write into the shared page, as functions
    from page to page, and what the other VM reads back. */
module Staging {
  import opened Bytes
  import opened SharedPage

  const SLOT: nat := 971
  const PAYLOAD: nat := 3884

  function OffInvoke(ct: nat): nat {
    Hv(ct).OffsetInvokeArgs()
  }

  function OffParams(ct: nat): nat {
    Hv(ct).OffsetParams()
  }

  function OffPayload(ct: nat): nat {
    Hv(ct).OffsetPayload()
  }

  // ---------------------------------------------------------------- reading

  function CallTypeAt(p: seq<byte>, ct: nat): nat
    requires IsPage(p) && EnumSize(ct)
  {
    UnLE(Get(p, 0, ct))
  }

  function SessionAt(p: seq<byte>, ct: nat): SessionArgs
    requires IsPage(p) && EnumSize(ct)
  {
    SessionOf(Get(p, ct, 56))
  }

  function InvokeAt(p: seq<byte>, ct: nat): InvokeArgs
    requires IsPage(p) && EnumSize(ct)
  {
    InvokeOf(Get(p, OffInvoke(ct), 24))
  }

  function ParamBytesAt(p: seq<byte>, ct: nat, i: nat): (d: seq<byte>)
    requires IsPage(p) && EnumSize(ct) && i < MAX_PARAMS
    ensures |d| == 32
  {
    Get(p, OffParams(ct) + 32 * i, 32)
  }

  function ParamAt(p: seq<byte>, ct: nat, i: nat): Param
    requires IsPage(p) && EnumSize(ct) && i < MAX_PARAMS
  {
    ParamOf(ParamBytesAt(p, ct, i))
  }

  function PayloadOf(p: seq<byte>, ct: nat): (d: seq<byte>)
    requires IsPage(p) && EnumSize(ct)
    ensures |d| == PAYLOAD
  {
    Get(p, OffPayload(ct), PAYLOAD)
  }

  // ---------------------------------------------------------------- the page, byte by byte

  /** The numbers in use are those of the layout. */
  lemma LayoutInUse(ct: nat, i: nat)
    requires EnumSize(ct) && i < MAX_PARAMS
    ensures SLOT == Hv(ct).SlotSize() == 971 && PAYLOAD == Hv(ct).PayloadSize() == 3884 && ZEROED == 1024
    ensures SLOT * i == Hv(ct).MemrefOffset(i)
    ensures OffInvoke(ct) == ct + 56 && OffParams(ct) == ct + 80 && OffPayload(ct) == ct + 208
  {
  }

  /** The four or eight bytes at place o, as a number. */
  function Word(p: seq<byte>, o: nat): int
    requires o + 4 <= |p|
  {
    Number(p[o], p[o + 1], p[o + 2], p[o + 3])
  }

  function Long(p: seq<byte>, o: nat): int
    requires o + 8 <= |p|
  {
    Word(p, o) + 0x1_0000_0000 * Word(p, o + 4)
  }

  lemma WordRead(p: seq<byte>, off: nat, n: nat, x: nat)
    requires off + n <= |p| && x + 4 <= n
    ensures U32(Get(p, off, n)[x..x + 4]) == Word(p, off + x)
  {
    var d := Get(p, off, n)[x..x + 4];
    Value32(d);
    assert d[0] == p[off + x] && d[1] == p[off + x + 1] && d[2] == p[off + x + 2] && d[3] == p[off + x + 3];
  }

  lemma LongRead(p: seq<byte>, off: nat, n: nat, x: nat)
    requires off + n <= |p| && x + 8 <= n
    ensures U64(Get(p, off, n)[x..x + 8]) == Long(p, off + x)
  {
    var s, d := Get(p, off, n), Get(p, off, n)[x..x + 8];
    Value64(d);
    assert d[..4] == s[x..x + 4] && d[4..] == s[x + 4..x + 8];
    WordRead(p, off, n, x);
    WordRead(p, off, n, x + 4);
  }

  /** Where the other VM finds the fields of the packed message. */
  lemma InvokeRead(p: seq<byte>, ct: nat)
    requires IsPage(p) && EnumSize(ct)
    ensures var v := InvokeAt(p, ct);
      && v.func == Word(p, ct + 56) && v.session == Word(p, ct + 60) && v.cancelId == Word(p, ct + 64)
      && v.ret == Word(p, ct + 68) && v.retOrigin == Word(p, ct + 72) && v.paramTypes == Word(p, ct + 76)
  {
    hide Word, U32, Get;
    WordRead(p, ct + 56, 24, 0);
    WordRead(p, ct + 56, 24, 4);
    WordRead(p, ct + 56, 24, 8);
    WordRead(p, ct + 56, 24, 12);
    WordRead(p, ct + 56, 24, 16);
    WordRead(p, ct + 56, 24, 20);
  }

  lemma SessionRead(p: seq<byte>, ct: nat)
    requires IsPage(p) && EnumSize(ct)
    ensures var v := SessionAt(p, ct);
      && v.uuid == p[ct..ct + 16] && v.clntUuid == p[ct + 16..ct + 32]
      && v.clntLogin == Word(p, ct + 32) && v.cancelId == Word(p, ct + 36) && v.session == Word(p, ct + 40)
      && v.ret == Word(p, ct + 44) && v.retOrigin == Word(p, ct + 48) && v.paramTypes == Word(p, ct + 52)
  {
    var d := Get(p, ct, 56);
    GetOf(p, ct, 56, 0, 16);
    GetOf(p, ct, 56, 16, 16);
    GetOf(p, ct, 56, 32, 24);
    assert d[..16] == Get(d, 0, 16) && d[16..32] == Get(d, 16, 16) && d[32..56] == Get(d, 32, 24);
    hide Word, U32, Get;
    WordRead(p, ct + 32, 24, 0);
    WordRead(p, ct + 32, 24, 4);
    WordRead(p, ct + 32, 24, 8);
    WordRead(p, ct + 32, 24, 12);
    WordRead(p, ct + 32, 24, 16);
    WordRead(p, ct + 32, 24, 20);
  }

  lemma ParamRead(p: seq<byte>, ct: nat, i: nat)
    requires IsPage(p) && EnumSize(ct) && i < MAX_PARAMS
    ensures var o, v := ct + 80 + 32 * i, ParamAt(p, ct, i);
      v.attr == Long(p, o) && v.a == Long(p, o + 8) && v.b == Long(p, o + 16) && v.c == Long(p, o + 24)
  {
    var o := ct + 80 + 32 * i;
    assert OffParams(ct) + 32 * i == o;
    hide Long, U64, Get;
    LongRead(p, o, 32, 0);
    LongRead(p, o, 32, 8);
    LongRead(p, o, 32, 16);
    LongRead(p, o, 32, 24);
  }

  /** The call type is c exactly if its lowest byte is and the others are zero. */
  lemma CallTypeRead(p: seq<byte>, ct: nat, c: byte)
    requires IsPage(p) && EnumSize(ct)
    ensures CallTypeAt(p, ct) == c <==> p[0] == c && forall k | 1 <= k < ct :: p[k] == 0
  {
    var d := Get(p, 0, ct);
    assert forall k | 0 <= k < ct :: d[k] == p[k];
    LowByte(d, c);
  }

  lemma {:induction false} LowByte(d: seq<byte>, c: byte)
    requires d != []
    ensures UnLE(d) == c <==> d[0] == c && forall k | 1 <= k < |d| :: d[k] == 0
  {
    var r := d[1..];
    assert UnLE(d) == d[0] as int + 256 * UnLE(r);
    assert forall k | 0 <= k < |r| :: r[k] == d[k + 1];
    if r != [] {
      LowByte(r, 0);
      if forall k | 1 <= k < |d| :: d[k] == 0 {
        assert forall k | 0 <= k < |r| :: r[k] == 0;
      }
      if forall k | 0 <= k < |r| :: r[k] == 0 {
        assert forall k | 1 <= k < |d| :: d[k] == r[k - 1];
      }
    }
  }

  // ---------------------------------------------------------------- the driver's header writes

  function StageParams(p: seq<byte>, ct: nat, ps: seq<Param>, n: nat): (q: seq<byte>)
    requires IsPage(p) && EnumSize(ct) && n <= |ps| && n <= MAX_PARAMS
    ensures IsPage(q)
  {
    if n == 0 then p else Put(StageParams(p, ct, ps, n - 1), OffParams(ct) + 32 * (n - 1), ParamBytes(ps[n - 1]))
  }

  /** Entries below n are those of ps, the others are as in p; nothing else of
      the page has changed. */
  ghost predicate Entries(q: seq<byte>, p: seq<byte>, ct: nat, ps: seq<Param>, n: nat)
    requires IsPage(p) && IsPage(q) && EnumSize(ct) && n <= |ps| && n <= MAX_PARAMS
  {
    && (forall i | 0 <= i < MAX_PARAMS :: ParamAt(q, ct, i) == if i < n then ps[i] else ParamAt(p, ct, i))
    && Get(q, 0, OffParams(ct)) == Get(p, 0, OffParams(ct))
    && PayloadOf(q, ct) == PayloadOf(p, ct)
  }

  lemma OneParam(mid: seq<byte>, q: seq<byte>, p: seq<byte>, ct: nat, ps: seq<Param>, n: nat, n': nat)
    requires IsPage(p) && IsPage(mid) && IsPage(q) && EnumSize(ct) && n < |ps| && n < MAX_PARAMS
    requires Entries(mid, p, ct, ps, n)
    requires q == Put(mid, OffParams(ct) + 32 * n, ParamBytes(ps[n])) && n' == n + 1
    ensures Entries(q, p, ct, ps, n')
  {
    var off, d := OffParams(ct) + 32 * n, ParamBytes(ps[n]);
    forall i | 0 <= i < MAX_PARAMS
      ensures ParamAt(q, ct, i) == if i == n then ps[n] else ParamAt(mid, ct, i)
    {
      if i == n {
        PutGet(mid, off, d);
        ParamRoundTrip(ps[n]);
      } else {
        PutOther(mid, off, d, OffParams(ct) + 32 * i, 32);
      }
    }
    PutOther(mid, off, d, 0, OffParams(ct));
    PutOther(mid, off, d, OffPayload(ct), PAYLOAD);
  }

  lemma NoParams(p: seq<byte>, ct: nat, ps: seq<Param>)
    requires IsPage(p) && EnumSize(ct)
    ensures p == StageParams(p, ct, ps, 0) && Entries(p, p, ct, ps, 0)
  {
  }

  lemma NextParam(mid: seq<byte>, p: seq<byte>, ct: nat, ps: seq<Param>, n: nat) returns (q: seq<byte>)
    requires IsPage(p) && EnumSize(ct) && n < |ps| && n < MAX_PARAMS
    requires mid == StageParams(p, ct, ps, n) && Entries(mid, p, ct, ps, n)
    ensures q == StageParams(p, ct, ps, n + 1) && Entries(q, p, ct, ps, n + 1)
  {
    q := Put(mid, OffParams(ct) + 32 * n, ParamBytes(ps[n]));
    hide Entries, Put, ParamBytes, OffParams;
    OneParam(mid, q, p, ct, ps, n, n + 1);
  }

  /** The first n entries are written, and nothing else. */
  lemma {:induction false} ParamsStaged(p: seq<byte>, ct: nat, ps: seq<Param>, n: nat) returns (q: seq<byte>)
    requires IsPage(p) && EnumSize(ct) && n <= |ps| && n <= MAX_PARAMS
    ensures q == StageParams(p, ct, ps, n) && Entries(q, p, ct, ps, n)
  {
    hide *;
    if n == 0 {
      NoParams(p, ct, ps);
      q := p;
    } else {
      var mid := ParamsStaged(p, ct, ps, n - 1);
      q := NextParam(mid, p, ct, ps, n - 1);
    }
  }

  /** A part of a part. */
  lemma GetGet(p: seq<byte>, q: seq<byte>, off: nat, n: nat, x: nat, m: nat)
    requires |p| == |q| && off + n <= |p| && Get(p, off, n) == Get(q, off, n) && off <= x && x + m <= off + n
    ensures Get(p, x, m) == Get(q, x, m)
  {
    GetOf(p, off, n, x - off, m);
    GetOf(q, off, n, x - off, m);
  }

  lemma GetOf(p: seq<byte>, off: nat, n: nat, y: nat, m: nat)
    requires off + n <= |p| && y + m <= n
    ensures Get(Get(p, off, n), y, m) == Get(p, off + y, m)
  {
    forall k | 0 <= k < m
      ensures Get(Get(p, off, n), y, m)[k] == Get(p, off + y, m)[k]
    {
      assert Get(p, off, n)[y + k] == p[off + (y + k)];
    }
  }

  /** The header of an invoke call: call type, arguments, then the parameters. */
  function StageInvoke(p: seq<byte>, ct: nat, v: InvokeArgs, ps: seq<Param>, num: nat): (q: seq<byte>)
    requires IsPage(p) && EnumSize(ct) && Min(num, MAX_PARAMS) <= |ps|
    ensures IsPage(q)
  {
    StageParams(Put(Put(p, 0, CallTypeBytes(INVOKE_FUNC, ct)), OffInvoke(ct), InvokeBytes(v)), ct, ps,
        Min(num, MAX_PARAMS))
  }

  /** The header of an open call. */
  function StageOpen(p: seq<byte>, ct: nat, v: SessionArgs, ps: seq<Param>, num: nat): (q: seq<byte>)
    requires IsPage(p) && EnumSize(ct) && Min(num, MAX_PARAMS) <= |ps|
    requires |v.uuid| == TEE_UUID_LEN && |v.clntUuid| == TEE_UUID_LEN
    ensures IsPage(q)
  {
    StageParams(Put(Put(p, 0, CallTypeBytes(OPEN_SESSION, ct)), ct, SessionBytes(v)), ct, ps, Min(num, MAX_PARAMS))
  }

  /** The header of a close call. */
  function StageClose(p: seq<byte>, ct: nat, v: SessionArgs): (q: seq<byte>)
    requires IsPage(p) && EnumSize(ct) && |v.uuid| == TEE_UUID_LEN && |v.clntUuid| == TEE_UUID_LEN
    ensures IsPage(q)
  {
    Put(Put(p, 0, CallTypeBytes(CLOSE_SESSION, ct)), ct, SessionBytes(v))
  }

  /** The parameters seen after a call with num parameters out of ps. */
  ghost predicate ParamsSeen(q: seq<byte>, p: seq<byte>, ct: nat, ps: seq<Param>, num: nat)
    requires IsPage(p) && IsPage(q) && EnumSize(ct) && Min(num, MAX_PARAMS) <= |ps|
  {
    forall i | 0 <= i < MAX_PARAMS :: ParamAt(q, ct, i) == if i < num then ps[i] else ParamAt(p, ct, i)
  }

  /** The other VM reads what the driver was given, and the payload is untouched. */
  lemma InvokeStaged(p: seq<byte>, ct: nat, v: InvokeArgs, ps: seq<Param>, num: nat)
    requires IsPage(p) && EnumSize(ct) && Min(num, MAX_PARAMS) <= |ps|
    ensures var q := StageInvoke(p, ct, v, ps, num);
      && CallTypeAt(q, ct) == CallCode(INVOKE_FUNC) as nat
      && InvokeAt(q, ct) == v
      && SessionAt(q, ct) == SessionAt(p, ct)
      && ParamsSeen(q, p, ct, ps, num)
      && PayloadOf(q, ct) == PayloadOf(p, ct)
  {
    var c, d := CallTypeBytes(INVOKE_FUNC, ct), InvokeBytes(v);
    var p1 := Put(p, 0, c);
    var p2 := Put(p1, OffInvoke(ct), d);
    var q := ParamsStaged(p2, ct, ps, Min(num, MAX_PARAMS));
    PutGet(p, 0, c);
    PutOther(p1, OffInvoke(ct), d, 0, ct);
    PutGet(p1, OffInvoke(ct), d);
    PutOther(p, 0, c, ct, 56);
    PutOther(p1, OffInvoke(ct), d, ct, 56);
    GetGet(q, p2, 0, OffParams(ct), 0, ct);
    GetGet(q, p2, 0, OffParams(ct), ct, 56);
    GetGet(q, p2, 0, OffParams(ct), OffInvoke(ct), 24);
    CallTypeRoundTrip(INVOKE_FUNC, ct);
    InvokeRoundTrip(v);
    AboveHeader(p, p1, p2, ct, c, OffInvoke(ct), d);
  }

  /** Writes into the header change neither the parameters nor the payload. */
  lemma AboveHeader(p: seq<byte>, p1: seq<byte>, p2: seq<byte>, ct: nat, c: seq<byte>, off: nat, d: seq<byte>)
    requires IsPage(p) && EnumSize(ct) && |c| <= ct && off + |d| <= OffParams(ct)
    requires p1 == Put(p, 0, c) && p2 == Put(p1, off, d)
    ensures PayloadOf(p2, ct) == PayloadOf(p, ct)
    ensures forall i | 0 <= i < MAX_PARAMS :: ParamAt(p2, ct, i) == ParamAt(p, ct, i)
  {
    PutOther(p, 0, c, OffPayload(ct), PAYLOAD);
    PutOther(p1, off, d, OffPayload(ct), PAYLOAD);
    forall i | 0 <= i < MAX_PARAMS
      ensures ParamAt(p2, ct, i) == ParamAt(p, ct, i)
    {
      PutOther(p, 0, c, OffParams(ct) + 32 * i, 32);
      PutOther(p1, off, d, OffParams(ct) + 32 * i, 32);
    }
  }

  lemma OpenStaged(p: seq<byte>, ct: nat, v: SessionArgs, ps: seq<Param>, num: nat)
    requires IsPage(p) && EnumSize(ct) && Min(num, MAX_PARAMS) <= |ps|
    requires |v.uuid| == TEE_UUID_LEN && |v.clntUuid| == TEE_UUID_LEN
    ensures var q := StageOpen(p, ct, v, ps, num);
      && CallTypeAt(q, ct) == CallCode(OPEN_SESSION) as nat
      && SessionAt(q, ct) == v
      && InvokeAt(q, ct) == InvokeAt(p, ct)
      && ParamsSeen(q, p, ct, ps, num)
      && PayloadOf(q, ct) == PayloadOf(p, ct)
  {
    var c, d := CallTypeBytes(OPEN_SESSION, ct), SessionBytes(v);
    var p1 := Put(p, 0, c);
    var p2 := Put(p1, ct, d);
    var q := ParamsStaged(p2, ct, ps, Min(num, MAX_PARAMS));
    PutGet(p, 0, c);
    PutOther(p1, ct, d, 0, ct);
    PutGet(p1, ct, d);
    PutOther(p, 0, c, OffInvoke(ct), 24);
    PutOther(p1, ct, d, OffInvoke(ct), 24);
    GetGet(q, p2, 0, OffParams(ct), 0, ct);
    GetGet(q, p2, 0, OffParams(ct), ct, 56);
    GetGet(q, p2, 0, OffParams(ct), OffInvoke(ct), 24);
    CallTypeRoundTrip(OPEN_SESSION, ct);
    SessionRoundTrip(v);
    AboveHeader(p, p1, p2, ct, c, ct, d);
  }

  lemma CloseStaged(p: seq<byte>, ct: nat, v: SessionArgs)
    requires IsPage(p) && EnumSize(ct) && |v.uuid| == TEE_UUID_LEN && |v.clntUuid| == TEE_UUID_LEN
    ensures var q := StageClose(p, ct, v);
      && CallTypeAt(q, ct) == CallCode(CLOSE_SESSION) as nat
      && SessionAt(q, ct) == v
      && InvokeAt(q, ct) == InvokeAt(p, ct)
      && (forall i | 0 <= i < MAX_PARAMS :: ParamAt(q, ct, i) == ParamAt(p, ct, i))
      && PayloadOf(q, ct) == PayloadOf(p, ct)
  {
    var c, d := CallTypeBytes(CLOSE_SESSION, ct), SessionBytes(v);
    var p1 := Put(p, 0, c);
    PutGet(p, 0, c);
    PutOther(p1, ct, d, 0, ct);
    PutGet(p1, ct, d);
    PutOther(p, 0, c, OffInvoke(ct), 24);
    PutOther(p1, ct, d, OffInvoke(ct), 24);
    CallTypeRoundTrip(CLOSE_SESSION, ct);
    SessionRoundTrip(v);
    AboveHeader(p, p1, Put(p1, ct, d), ct, c, ct, d);
  }

  // ---------------------------------------------------------------- the caller's payload writes

  /** The payload is zeroed up to ZEROED and then slots get the inputs. */
  function StageInputs(p: seq<byte>, ct: nat, inputs: seq<seq<byte>>, n: nat): (q: seq<byte>)
    requires IsPage(p) && EnumSize(ct) && n <= |inputs| && n <= MAX_PARAMS
    requires forall i | 0 <= i < |inputs| :: |inputs[i]| <= SLOT
    ensures IsPage(q)
  {
    if n == 0 then Put(p, OffPayload(ct), Rep(0, ZEROED))
    else Put(StageInputs(p, ct, inputs, n - 1), OffPayload(ct) + SLOT * (n - 1), inputs[n - 1])
  }

  /** Payload byte x after staging: an input byte, zero, or what it was. */
  function StagedByte(before: seq<byte>, inputs: seq<seq<byte>>, n: nat, x: nat): byte
    requires |before| == PAYLOAD && x < PAYLOAD && n <= |inputs|
  {
    var i, r := x / SLOT, x % SLOT;
    if i < n && r < |inputs[i]| then inputs[i][r]
    else if x < ZEROED then 0
    else before[x]
  }

  lemma PutAt(p: seq<byte>, off: nat, d: seq<byte>, x: nat)
    requires off + |d| <= |p| && x < |p|
    ensures Put(p, off, d)[x] == if off <= x < off + |d| then d[x - off] else p[x]
  {
  }

  /** q's payload is before with the first n inputs staged. */
  ghost predicate Staged(q: seq<byte>, ct: nat, before: seq<byte>, inputs: seq<seq<byte>>, n: nat)
    requires IsPage(q) && EnumSize(ct) && |before| == PAYLOAD && n <= |inputs|
  {
    forall x: nat | x < PAYLOAD :: PayloadOf(q, ct)[x] == StagedByte(before, inputs, n, x)
  }

  lemma ZeroedFirst(p: seq<byte>, ct: nat, inputs: seq<seq<byte>>)
    requires IsPage(p) && EnumSize(ct)
    ensures Staged(Put(p, OffPayload(ct), Rep(0, ZEROED)), ct, PayloadOf(p, ct), inputs, 0)
  {
    var off, z := OffPayload(ct), Rep(0, ZEROED);
    var q := Put(p, off, z);
    forall x: nat | x < PAYLOAD
      ensures PayloadOf(q, ct)[x] == StagedByte(PayloadOf(p, ct), inputs, 0, x)
    {
      PutAt(p, off, z, off + x);
    }
  }

  lemma OneInput(mid: seq<byte>, q: seq<byte>, ct: nat, before: seq<byte>, inputs: seq<seq<byte>>, n: nat, n': nat)
    requires IsPage(mid) && EnumSize(ct) && |before| == PAYLOAD && n < |inputs| && n < MAX_PARAMS && |inputs[n]| <= SLOT
    requires q == Put(mid, OffPayload(ct) + SLOT * n, inputs[n]) && n' == n + 1
    requires Staged(mid, ct, before, inputs, n)
    ensures Staged(q, ct, before, inputs, n')
    ensures Get(q, 0, OffPayload(ct)) == Get(mid, 0, OffPayload(ct))
  {
    var off, d := OffPayload(ct), inputs[n];
    PutOther(mid, off + SLOT * n, d, 0, off);
    forall x: nat | x < PAYLOAD
      ensures PayloadOf(q, ct)[x] == StagedByte(before, inputs, n', x)
    {
      PutAt(mid, off + SLOT * n, d, off + x);
      InSlot(x, n, |d|);
      assert PayloadOf(mid, ct)[x] == mid[off + x] && PayloadOf(q, ct)[x] == q[off + x];
    }
  }

  /** After staging, input slots hold the inputs, the rest of the first ZEROED
      bytes is zero, everything else of the payload and the header is as before. */
  lemma {:induction false} InputsStaged(p: seq<byte>, ct: nat, inputs: seq<seq<byte>>, n: nat) returns (q: seq<byte>)
    requires IsPage(p) && EnumSize(ct) && n <= |inputs| && n <= MAX_PARAMS
    requires forall i | 0 <= i < |inputs| :: |inputs[i]| <= SLOT
    ensures q == StageInputs(p, ct, inputs, n) && Staged(q, ct, PayloadOf(p, ct), inputs, n)
    ensures Get(q, 0, OffPayload(ct)) == Get(p, 0, OffPayload(ct))
  {
    if n == 0 {
      q := Put(p, OffPayload(ct), Rep(0, ZEROED));
      assert q == StageInputs(p, ct, inputs, 0) && OffPayload(ct) + ZEROED <= PAGE_SIZE;
      hide Staged, PayloadOf, Put, Get, StageInputs, Rep;
      ZeroedFirst(p, ct, inputs);
      PutOther(p, OffPayload(ct), Rep(0, ZEROED), 0, OffPayload(ct));
    } else {
      var mid := InputsStaged(p, ct, inputs, n - 1);
      q := Put(mid, OffPayload(ct) + SLOT * (n - 1), inputs[n - 1]);
      assert q == StageInputs(p, ct, inputs, n);
      hide Staged, PayloadOf, Put, Get, StageInputs;
      OneInput(mid, q, ct, PayloadOf(p, ct), inputs, n - 1, n);
    }
  }

  lemma InSlot(x: nat, i: nat, len: nat)
    requires len <= SLOT && i < MAX_PARAMS
    ensures SLOT * i <= x < SLOT * i + len <==> x / SLOT == i && x % SLOT < len
    ensures SLOT * i <= x < SLOT * i + len ==> x % SLOT == x - SLOT * i
  {
  }

  /** Slot i of the payload holds the bytes d. */
  predicate SlotHolds(p: seq<byte>, ct: nat, i: nat, d: seq<byte>)
    requires IsPage(p) && EnumSize(ct) && i < MAX_PARAMS && |d| <= SLOT
  {
    Get(p, OffPayload(ct) + SLOT * i, |d|) == d
  }

  /** Every input is found in its own slot. */
  lemma InputInSlot(q: seq<byte>, ct: nat, before: seq<byte>, inputs: seq<seq<byte>>, n: nat, i: nat)
    requires IsPage(q) && EnumSize(ct) && |before| == PAYLOAD && i < n <= |inputs| && n <= MAX_PARAMS
    requires forall k | 0 <= k < |inputs| :: |inputs[k]| <= SLOT
    requires Staged(q, ct, before, inputs, n)
    ensures SlotHolds(q, ct, i, inputs[i])
  {
    forall k | 0 <= k < |inputs[i]|
      ensures Get(q, OffPayload(ct) + SLOT * i, |inputs[i]|)[k] == inputs[i][k]
    {
      var x := SLOT * i + k;
      InSlot(x, i, |inputs[i]|);
      assert PayloadOf(q, ct)[x] == q[OffPayload(ct) + x];
    }
  }
}
