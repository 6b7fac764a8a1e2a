/** The client side of the calls into the other VM: the driver, the interrupt
    handler that takes the replies, and the sequence of calls of one challenge. */
module PufCaller {
  import opened Bytes
  import opened Memory
  import opened Challenge
  import opened SharedPage
  import opened Staging

  type int32 = x: int | -0x8000_0000 <= x < 0x8000_0000

  /** Conversions between int and uint32_t, as the compiler makes them. */
  function AsInt32(v: uint32): int32 {
    if v < 0x8000_0000 then v else v - 0x1_0000_0000
  }

  function AsUint32(v: int32): uint32 {
    if v >= 0 then v else v + 0x1_0000_0000
  }

  const PUF_TA_UUID: seq<byte> :=
    [0x00, 0x11, 0x22, 0x33, 0x44, 0x55, 0x66, 0x77, 0x88, 0x99, 0xAA, 0xBB, 0xCC, 0xDD, 0xEE, 0xFF]
  const CLIENT_UUID: seq<byte> :=
    [0x10, 0x20, 0x30, 0x40, 0x50, 0x60, 0x70, 0x80, 0x90, 0xA0, 0xB0, 0xC0, 0xD0, 0xE0, 0xF0, 0x00]
  const LOGIN_USER: uint32 := 1

  // ---------------------------------------------------------------- what is asked of the other side

  /** The reply r to page q keeps the call type and the parameter entries. */
  ghost predicate KeepsMeta(r: seq<byte>, q: seq<byte>, ct: nat)
    requires IsPage(q) && EnumSize(ct)
  {
    && IsPage(r)
    && Get(r, 0, ct) == Get(q, 0, ct)
    && Get(r, OffParams(ct), 128) == Get(q, OffParams(ct), 128)
  }

  /** Whatever else it does, and whatever it remembers of earlier calls. */
  ghost predicate Faithful(ta: seq<seq<byte>> -> seq<byte>, ct: nat)
    requires EnumSize(ct)
  {
    forall h {:trigger ta(h)} | h != [] && IsPage(h[|h| - 1]) :: KeepsMeta(ta(h), h[|h| - 1], ct)
  }

  lemma MetaKept(r: seq<byte>, q: seq<byte>, ct: nat)
    requires IsPage(q) && EnumSize(ct) && KeepsMeta(r, q, ct)
    ensures CallTypeAt(r, ct) == CallTypeAt(q, ct)
    ensures forall i | 0 <= i < MAX_PARAMS :: ParamAt(r, ct, i) == ParamAt(q, ct, i)
  {
    forall i | 0 <= i < MAX_PARAMS
      ensures ParamAt(r, ct, i) == ParamAt(q, ct, i)
    {
      GetGet(r, q, OffParams(ct), 128, OffParams(ct) + 32 * i, 32);
    }
  }

  // ---------------------------------------------------------------- what the other side is shown

  function Memref(attr: uint64, i: nat, len: byte, shm: uint64): Param
    requires i < MAX_PARAMS
  {
    Param(attr, i * SLOT, len, shm)
  }

  function InitTable(shm: uint64): (t: seq<Param>)
    ensures |t| == MAX_PARAMS
  {
    [Memref(ATTR_MEMREF_OUTPUT, 0, 32, shm), Memref(ATTR_MEMREF_OUTPUT, 1, 32, shm),
     Memref(ATTR_MEMREF_OUTPUT, 2, 32, shm), Memref(ATTR_MEMREF_OUTPUT, 3, 32, shm)]
  }

  function CommitmentTable(shm: uint64): (t: seq<Param>)
    ensures |t| == MAX_PARAMS
  {
    [Memref(ATTR_MEMREF_INPUT, 0, 32, shm), Memref(ATTR_MEMREF_INPUT, 1, 32, shm),
     Memref(ATTR_MEMREF_OUTPUT, 2, 32, shm), Memref(ATTR_MEMREF_OUTPUT, 3, 32, shm)]
  }

  function ProofsTable(shm: uint64): (t: seq<Param>)
    ensures |t| == MAX_PARAMS
  {
    [Memref(ATTR_MEMREF_INOUT, 0, 32, shm), Memref(ATTR_MEMREF_INOUT, 1, 32, shm),
     Memref(ATTR_MEMREF_INOUT, 2, 64, shm), Memref(ATTR_MEMREF_OUTPUT, 3, 64, shm)]
  }

  /** The slots of the table are where the record's results will be looked for. */
  predicate InSlots(table: seq<Param>) {
    |table| == MAX_PARAMS && forall i | 0 <= i < MAX_PARAMS :: table[i].a == i * SLOT
  }

  function OpenArgs(arg: SessionArgs, types: uint32): SessionArgs {
    SessionArgs(arg.uuid, arg.clntUuid, arg.clntLogin, 0, 0, 0, 0, types)
  }

  function CloseArgs(session: uint32): SessionArgs {
    SessionArgs(Rep(0, TEE_UUID_LEN), Rep(0, TEE_UUID_LEN), 0, 0, session, 0, 0, 0)
  }

  ghost predicate SawOpen(q: seq<byte>, ct: nat)
    requires EnumSize(ct)
  {
    && IsPage(q)
    && CallTypeAt(q, ct) == CallCode(OPEN_SESSION)
    && SessionAt(q, ct) == SessionArgs(PUF_TA_UUID, CLIENT_UUID, LOGIN_USER, 0, 0, 0, 0, 0)
  }

  ghost predicate SawInvoke(q: seq<byte>, ct: nat, func: uint32, session: uint32, table: seq<Param>)
    requires EnumSize(ct) && |table| == MAX_PARAMS
  {
    && IsPage(q)
    && CallTypeAt(q, ct) == CallCode(INVOKE_FUNC)
    && InvokeAt(q, ct) == InvokeArgs(func, session, 0, 0, 0, TypesOf(table, MAX_PARAMS))
    && forall i | 0 <= i < MAX_PARAMS :: ParamAt(q, ct, i) == table[i]
  }

  ghost predicate SawClose(q: seq<byte>, ct: nat, session: uint32)
    requires EnumSize(ct)
  {
    && IsPage(q)
    && CallTypeAt(q, ct) == CallCode(CLOSE_SESSION)
    && SessionAt(q, ct) == CloseArgs(session)
  }

  lemma InvokeSeen(p: seq<byte>, ct: nat, func: uint32, session: uint32, table: seq<Param>)
    requires IsPage(p) && EnumSize(ct) && |table| == MAX_PARAMS
    ensures var q := StageInvoke(p, ct, InvokeArgs(func, session, 0, 0, 0, TypesOf(table, MAX_PARAMS)),
            table, MAX_PARAMS);
      SawInvoke(q, ct, func, session, table) && PayloadOf(q, ct) == PayloadOf(p, ct)
  {
    InvokeStaged(p, ct, InvokeArgs(func, session, 0, 0, 0, TypesOf(table, MAX_PARAMS)), table, MAX_PARAMS);
  }

  lemma OpenSeen(p: seq<byte>, ct: nat, arg: SessionArgs)
    requires IsPage(p) && EnumSize(ct)
    requires arg.uuid == PUF_TA_UUID && arg.clntUuid == CLIENT_UUID && arg.clntLogin == LOGIN_USER
    ensures SawOpen(StageOpen(p, ct, OpenArgs(arg, TypesOf([], 0)), [], 0), ct)
  {
    OpenStaged(p, ct, OpenArgs(arg, TypesOf([], 0)), [], 0);
    assert TypesOf([], 0) == 0;
  }

  // ---------------------------------------------------------------- records

  /** memcpy reads the first n bytes of this portion. */
  predicate Supplies(p: Portion, blocks: Blocks, n: nat) {
    p.data.Block? && p.data.addr in blocks && |blocks[p.data.addr]| >= n
  }

  function Supply(p: Portion, blocks: Blocks, n: nat): (d: seq<byte>)
    requires Supplies(p, blocks, n)
    ensures |d| == n
  {
    blocks[p.data.addr][..n]
  }

  /** What memcpy takes from the first portions of a record. */
  function Inputs(ps: seq<Portion>, blocks: Blocks, sizes: seq<nat>): (inputs: seq<seq<byte>>)
    requires |sizes| <= |ps| && forall i | 0 <= i < |sizes| :: Supplies(ps[i], blocks, sizes[i])
    ensures |inputs| == |sizes| && forall i | 0 <= i < |sizes| :: |inputs[i]| == sizes[i]
  {
    seq(|sizes|, i requires 0 <= i < |sizes| => Supply(ps[i], blocks, sizes[i]))
  }

  /** A record as the calls find it. */
  datatype Record = Record(func: uint32, ps: seq<Portion>) {
    /** The inputs can be taken from it and the results copied into it. */
    ghost predicate Ok(blocks: Blocks, sizes: seq<nat>) {
      && |ps| == DATA_PORTIONS && |sizes| <= DATA_PORTIONS
      && Owned(ps, blocks) && Copyable(ps)
      && forall i | 0 <= i < |sizes| :: Supplies(ps[i], blocks, sizes[i])
    }
  }

  /** Results can be copied into every portion. */
  predicate Copyable(ps: seq<Portion>) {
    forall i | 0 <= i < |ps| :: ps[i].data.Null? ==> ps[i].len == 0
  }

  /** The first n portions hold the first bytes of their slots in page r. */
  ghost predicate Copied(ps: seq<Portion>, n: nat, blocks: Blocks, r: seq<byte>, ct: nat) {
    && n <= |ps| == MAX_PARAMS && IsPage(r) && EnumSize(ct)
    && forall i: nat | i < n && ps[i].data.Block? ::
      && ps[i].data.addr in blocks
      && blocks[ps[i].data.addr] == Get(r, OffPayload(ct) + i * SLOT, ps[i].len)
  }

  lemma CopyOne(ps: seq<Portion>, b0: Blocks, b: Blocks, b': Blocks, i: nat, r: seq<byte>, ct: nat)
    requires i < |ps| == MAX_PARAMS && IsPage(r) && EnumSize(ct)
    requires Owned(ps, b) && Copied(ps, i, b, r, ct) && OnlyThese(ps, b0, b)
    requires ps[i].data.Block? && b' == b[ps[i].data.addr := Get(r, OffPayload(ct) + i * SLOT, ps[i].len)]
    ensures Owned(ps, b') && Copied(ps, i + 1, b', r, ct) && OnlyThese(ps, b0, b')
  {
    StoreKeeps(ps, b, b', i, b'[ps[i].data.addr]);
  }

  /** The copies of a challenge are all in bounds and do not meet. */
  ghost predicate Ready(init: Record, comm: Record, proofs: Record, blocks: Blocks) {
    && init.Ok(blocks, []) && comm.Ok(blocks, [32, 32]) && proofs.Ok(blocks, [32, 32, 64])
    && Apart(init.ps, comm.ps) && Apart(init.ps, proofs.ps) && Apart(comm.ps, proofs.ps)
  }

  /** The payload of page q is that of page r with the inputs of the record
      staged in it; without inputs it is untouched. */
  ghost predicate Prepared(q: seq<byte>, ct: nat, r: seq<byte>, rec: Record, blocks: Blocks, sizes: seq<nat>) {
    && EnumSize(ct) && IsPage(q) && IsPage(r) && rec.Ok(blocks, sizes)
    && if sizes == [] then PayloadOf(q, ct) == PayloadOf(r, ct)
       else Staged(q, ct, PayloadOf(r, ct), Inputs(rec.ps, blocks, sizes), |sizes|)
  }

  /** One invoke call: the page q it showed, after the pages h, and the reply r. */
  datatype Round = Round(h: seq<seq<byte>>, q: seq<byte>, r: seq<byte>)

  /** The call carried func, session and table, and the record got the results. */
  ghost predicate Answered(round: Round, ta: seq<seq<byte>> -> seq<byte>, ct: nat, func: uint32, session: uint32,
                           table: seq<Param>, ps: seq<Portion>, before: Blocks, after: Blocks)
    requires EnumSize(ct) && |table| == |ps| == MAX_PARAMS
  {
    && IsPage(round.r) && round.r == ta(round.h + [round.q])
    && SawInvoke(round.q, ct, func, session, table)
    && Copied(ps, MAX_PARAMS, after, round.r, ct)
    && OnlyThese(ps, before, after)
  }

  /** The records and the other VM after a challenge: five calls were seen, in
      this order; each invoke carried its own record's id and inputs, and the
      session the other VM opened; each record got what its call left. */
  ghost predicate Challenged(ta: seq<seq<byte>> -> seq<byte>, ct: nat, shm: uint64, seen0: seq<seq<byte>>,
                             seen: seq<seq<byte>>,
                             init: Record, comm: Record, proofs: Record, before: Blocks, after: Blocks)
    requires EnumSize(ct) && Ready(init, comm, proofs, before)
  {
    var k := |seen0|;
    && |seen| == k + 5 && seen[..k] == seen0
    && var r0, r1, r2, r3 := ta(seen[..k + 1]), ta(seen[..k + 2]), ta(seen[..k + 3]), ta(seen[..k + 4]);
    && IsPage(r0) && IsPage(r1) && IsPage(r2) && IsPage(r3)
    && var session := SessionAt(r0, ct).session;
    && SawOpen(seen[k], ct)
    && SawInvoke(seen[k + 1], ct, init.func, session, InitTable(shm))
    && Prepared(seen[k + 1], ct, r0, init, before, [])
    && SawInvoke(seen[k + 2], ct, comm.func, session, CommitmentTable(shm))
    && Prepared(seen[k + 2], ct, r1, comm, before, [32, 32])
    && SawInvoke(seen[k + 3], ct, proofs.func, session, ProofsTable(shm))
    && Prepared(seen[k + 3], ct, r2, proofs, before, [32, 32, 64])
    && SawClose(seen[k + 4], ct, session)
    && Copied(init.ps, DATA_PORTIONS, after, r1, ct)
    && Copied(comm.ps, DATA_PORTIONS, after, r2, ct)
    && Copied(proofs.ps, DATA_PORTIONS, after, r3, ct)
    && Owned(init.ps, after) && Owned(comm.ps, after) && Owned(proofs.ps, after)
    && before.Keys == after.Keys
    && forall a | a in before && !Holds(init.ps, a) && !Holds(comm.ps, a) && !Holds(proofs.ps, a) ::
        after[a] == before[a]
  }

  lemma CopiedStays(ps: seq<Portion>, qs: seq<Portion>, before: Blocks, after: Blocks, r: seq<byte>, ct: nat)
    requires Owned(ps, before) && Apart(ps, qs) && OnlyThese(qs, before, after) && Copied(ps, MAX_PARAMS, before, r, ct)
    ensures Owned(ps, after) && Copied(ps, MAX_PARAMS, after, r, ct)
  {
    StaysPut(ps, qs, before, after);
  }

  /** The three rounds of a challenge put together. */
  lemma Assembled(ta: seq<seq<byte>> -> seq<byte>, ct: nat, shm: uint64, seen0: seq<seq<byte>>, q0: seq<byte>,
                  r0: seq<byte>, one: Round, two: Round, three: Round, q4: seq<byte>,
                  init: Record, comm: Record, proofs: Record, b0: Blocks, b1: Blocks, b2: Blocks, b3: Blocks)
    requires EnumSize(ct) && Ready(init, comm, proofs, b0)
    requires SawOpen(q0, ct) && IsPage(r0) && r0 == ta(seen0 + [q0])
    requires one.h == seen0 + [q0] && two.h == one.h + [one.q] && three.h == two.h + [two.q]
    requires var session := SessionAt(r0, ct).session;
      && Answered(one, ta, ct, init.func, session, InitTable(shm), init.ps, b0, b1)
      && Prepared(one.q, ct, r0, init, b0, [])
      && Answered(two, ta, ct, comm.func, session, CommitmentTable(shm), comm.ps, b1, b2)
      && Prepared(two.q, ct, one.r, comm, b0, [32, 32])
      && Answered(three, ta, ct, proofs.func, session, ProofsTable(shm), proofs.ps, b2, b3)
      && Prepared(three.q, ct, two.r, proofs, b0, [32, 32, 64])
      && SawClose(q4, ct, session)
    requires Owned(init.ps, b1) && Owned(comm.ps, b2) && Owned(proofs.ps, b3)
    ensures Challenged(ta, ct, shm, seen0, three.h + [three.q, q4], init, comm, proofs, b0, b3)
  {
    hide SawOpen, SawInvoke, SawClose, Prepared, SessionAt, Owned;
    var seen, k := three.h + [three.q, q4], |seen0|;
    assert seen[..k] == seen0;
    assert seen[..k + 1] == one.h;
    assert seen[..k + 2] == one.h + [one.q];
    assert seen[..k + 3] == two.h + [two.q];
    assert seen[..k + 4] == three.h + [three.q];
    hide Copied, KeepsMeta;
    CopiedStays(init.ps, comm.ps, b1, b2, one.r, ct);
    CopiedStays(init.ps, proofs.ps, b2, b3, one.r, ct);
    CopiedStays(comm.ps, proofs.ps, b2, b3, two.r, ct);
  }

  lemma StillOk(rec: Record, qs: seq<Portion>, sizes: seq<nat>, before: Blocks, after: Blocks)
    requires rec.Ok(before, sizes) && Apart(qs, rec.ps) && OnlyThese(qs, before, after)
    ensures rec.Ok(after, sizes) && Inputs(rec.ps, after, sizes) == Inputs(rec.ps, before, sizes)
    ensures Owned(rec.ps, after)
    ensures forall q, ct, r :: Prepared(q, ct, r, rec, after, sizes) <==> Prepared(q, ct, r, rec, before, sizes)
  {
    StaysPut(rec.ps, qs, before, after);
  }

  lemma WholeBlock(d: seq<byte>, block: seq<byte>)
    requires |d| == |block|
    ensures d + block[|d|..] == d
  {
  }

  class Guest {
    const ct: nat
    const shm: uint64
    const bound: bool
    const ta: seq<seq<byte>> -> seq<byte>
    const page: array<byte>
    const param: array<Param>
    var invokeArg: InvokeArgs
    var sessionArg: SessionArgs
    var sessionId: int32
    var seen: seq<seq<byte>>
    var pending: bool

    ghost predicate Valid() {
      EnumSize(ct) && page.Length == PAGE_SIZE && param.Length == MAX_PARAMS && page != (param as object)
          && Faithful(ta, ct)
    }

    /** The program's globals before any call. */
    constructor (ct: nat, shm: uint64, bound: bool, ta: seq<seq<byte>> -> seq<byte>, page: array<byte>)
      requires EnumSize(ct) && page.Length == PAGE_SIZE && Faithful(ta, ct)
      ensures Valid() && fresh(param) && this.page == page && this.ct == ct && this.shm == shm && this.bound == bound
      ensures this.ta == ta && sessionArg.ret == 0 && seen == [] && !pending
    {
      this.ct, this.shm, this.bound, this.ta, this.page := ct, shm, bound, ta, page;
      param := new Param[MAX_PARAMS](_ => Param(0, 0, 0, 0));
      invokeArg := InvokeArgs(0, 0, 0, 0, 0, 0);
      sessionArg := SessionArgs(Rep(0, TEE_UUID_LEN), Rep(0, TEE_UUID_LEN), 0, 0, 0, 0, 0, 0);
      sessionId, seen, pending := 0, [], false;
    }

    // -------------------------------------------------------------- the page and the other VM

    method Write(off: nat, d: seq<byte>)
      requires Valid() && off + |d| <= PAGE_SIZE
      modifies page
      ensures page[..] == Put(old(page[..]), off, d)
    {
      forall i | off <= i < off + |d| {
        page[i] := d[i - off];
      }
      assert page[..] == Put(old(page[..]), off, d);
    }

    /** ipc_notify. */
    method Notify()
      modifies `seen, `pending
      ensures seen == old(seen) + [page[..]] && pending
    {
      seen, pending := seen + [page[..]], true;
    }

    /** A sleep that is long enough: a pending call is answered and the reply
        interrupt is handled. */
    method Sleep()
      requires Valid() && (pending ==> seen != [] && seen[|seen| - 1] == page[..])
      modifies page, param, `invokeArg, `sessionId, `pending
      ensures !pending
      ensures !old(pending) ==> page[..] == old(page[..]) && param[..] == old(param[..])
                                && invokeArg == old(invokeArg) && sessionId == old(sessionId)
      ensures old(pending) ==> KeepsMeta(page[..], old(page[..]), ct) && page[..] == ta(seen)
                               && Handled(old(param[..]), old(invokeArg), old(sessionId))
    {
      if pending {
        ghost var q := page[..];
        var r := ta(seen);
        assert KeepsMeta(r, seen[|seen| - 1], ct);
        Write(0, r);
        assert page[..] == r;
        pending := false;
        IrqHandler();
      }
    }

    /** The state after the interrupt handler, by the call type in the page. */
    ghost predicate Handled(param0: seq<Param>, invoke0: InvokeArgs, session0: int32)
      requires Valid()
      reads page, param, `invokeArg, `sessionId
    {
      var p := page[..];
      var t := CallTypeAt(p, ct);
      && (if t == CallCode(INVOKE_FUNC) then
            && invokeArg == invoke0.(ret := InvokeAt(p, ct).ret, retOrigin := InvokeAt(p, ct).retOrigin)
            && (forall i | 0 <= i < MAX_PARAMS :: param[i] == ParamAt(p, ct, i))
          else
            invokeArg == invoke0 && param[..] == param0)
      && sessionId == if t == CallCode(OPEN_SESSION) then AsInt32(SessionAt(p, ct).session) else session0
    }

    /** ipc_irq_client_handler. */
    method IrqHandler()
      requires Valid()
      modifies param, `invokeArg, `sessionId
      ensures Handled(old(param[..]), old(invokeArg), old(sessionId))
    {
      var p := page[..];
      var t := CallTypeAt(p, ct);
      if t == CallCode(INVOKE_FUNC) {
        var v := InvokeAt(p, ct);
        invokeArg := invokeArg.(ret := v.ret, retOrigin := v.retOrigin);
        for i := 0 to MAX_PARAMS
          invariant page[..] == p && sessionId == old(sessionId)
          invariant invokeArg == old(invokeArg).(ret := v.ret, retOrigin := v.retOrigin)
          invariant forall k | 0 <= k < i :: param[k] == ParamAt(p, ct, k)
        {
          param[i] := ParamAt(p, ct, i);
        }
      } else if t == CallCode(OPEN_SESSION) {
        sessionId := AsInt32(SessionAt(p, ct).session);
      }
    }

    // -------------------------------------------------------------- the driver

    /** The first i entries of ps have been written to the page p0. */
    ghost predicate Entered(p0: seq<byte>, ps: seq<Param>, i: nat)
      requires Valid()
      reads page
    {
      IsPage(p0) && i <= |ps| && i <= MAX_PARAMS && page[..] == StageParams(p0, ct, ps, i)
    }

    /** The loop that fills the parameter entries of the header. */
    method FillParams(num: nat, ps: seq<Param>)
      requires Valid() && Min(num, MAX_PARAMS) <= |ps|
      modifies page
      ensures page[..] == StageParams(old(page[..]), ct, ps, Min(num, MAX_PARAMS))
    {
      ghost var p0 := page[..];
      FillEntries(num, ps, p0);
    }

    method FillEntries(num: nat, ps: seq<Param>, ghost p0: seq<byte>)
      requires Valid() && Min(num, MAX_PARAMS) <= |ps| && Entered(p0, ps, 0)
      modifies page
      ensures Entered(p0, ps, Min(num, MAX_PARAMS))
    {
      hide Entered, Valid;
      var i := 0;
      while i < num && i < MAX_PARAMS
        invariant 0 <= i <= Min(num, MAX_PARAMS) && Entered(p0, ps, i)
      {
        FillEntry(p0, ps, i);
        i := i + 1;
      }
    }

    method FillEntry(ghost p0: seq<byte>, ps: seq<Param>, i: nat)
      requires Valid() && i < MAX_PARAMS && i < |ps| && Entered(p0, ps, i)
      modifies page
      ensures Entered(p0, ps, i + 1)
    {
      Write(OffParams(ct) + 32 * i, ParamBytes(ps[i]));
    }

    /** crosscon_hv_tee_open_session. */
    method OpenSession(arg: SessionArgs, num: nat, ps: seq<Param>) returns (res: int)
      requires Valid() && Min(num, MAX_PARAMS) <= |ps|
      requires |arg.uuid| == TEE_UUID_LEN && |arg.clntUuid| == TEE_UUID_LEN
      modifies page, `seen, `pending
      ensures res == 0 && pending && seen == old(seen) + [page[..]]
      ensures page[..] == StageOpen(old(page[..]), ct, OpenArgs(arg, TypesOf(ps, num)), ps, num)
    {
      Write(0, CallTypeBytes(OPEN_SESSION, ct));
      Write(ct, SessionBytes(OpenArgs(arg, TypesOf(ps, num))));
      FillParams(num, ps);
      Notify();
      return 0;
    }

    /** crosscon_hv_tee_invoke_func. */
    method InvokeFunc(arg: InvokeArgs, num: nat, ps: seq<Param>) returns (res: int)
      requires Valid() && Min(num, MAX_PARAMS) <= |ps|
      modifies page, `seen, `pending
      ensures res == 0 && pending && seen == old(seen) + [page[..]]
      ensures page[..] == StageInvoke(old(page[..]), ct,
              InvokeArgs(arg.func, arg.session, arg.cancelId, 0, 0, TypesOf(ps, num)), ps, num)
    {
      Write(0, CallTypeBytes(INVOKE_FUNC, ct));
      Write(OffInvoke(ct), InvokeBytes(InvokeArgs(arg.func, arg.session, arg.cancelId, 0, 0, TypesOf(ps, num))));
      FillParams(num, ps);
      Notify();
      return 0;
    }

    /** crosscon_hv_tee_close_session. */
    method CloseSession(session: uint32) returns (res: int)
      requires Valid()
      modifies page, `seen, `pending
      ensures res == 0 && pending && seen == old(seen) + [page[..]]
      ensures page[..] == StageClose(old(page[..]), ct, CloseArgs(session))
    {
      Write(0, CallTypeBytes(CLOSE_SESSION, ct));
      Write(ct, SessionBytes(CloseArgs(session)));
      Notify();
      return 0;
    }

    // -------------------------------------------------------------- the calls

    method SetParams(table: seq<Param>)
      requires Valid() && |table| == MAX_PARAMS
      modifies param
      ensures param[..] == table
    {
      param[0], param[1], param[2], param[3] := table[0], table[1], table[2], table[3];
    }

    /** The common end of the three calls: the arguments, and the driver. */
    method Invoke(func: uint32, table: seq<Param>) returns (res: int)
      requires Valid() && param[..] == table
      modifies page, `invokeArg, `seen, `pending
      ensures res == 0 && pending && seen == old(seen) + [page[..]]
      ensures SawInvoke(page[..], ct, func, AsUint32(sessionId), table)
      ensures invokeArg == InvokeArgs(func, AsUint32(sessionId), 0, 0, 0, old(invokeArg).paramTypes)
      ensures PayloadOf(page[..], ct) == PayloadOf(old(page[..]), ct)
    {
      invokeArg := InvokeArgs(func, AsUint32(sessionId), 0, 0, 0, invokeArg.paramTypes);
      InvokeSeen(page[..], ct, func, AsUint32(sessionId), table);
      hide SawInvoke, StageInvoke, PayloadOf, TypesOf, Faithful;
      res := InvokeFunc(invokeArg, MAX_PARAMS, param[..]);
    }

    /** memset of the first bytes of the payload, then memcpy of the inputs. */
    method StagePayload(inputs: seq<seq<byte>>)
      requires Valid() && |inputs| <= MAX_PARAMS && forall i | 0 <= i < |inputs| :: |inputs[i]| <= SLOT
      modifies page
      ensures Staged(page[..], ct, PayloadOf(old(page[..]), ct), inputs, |inputs|)
      ensures Get(page[..], 0, OffPayload(ct)) == Get(old(page[..]), 0, OffPayload(ct))
    {
      Write(OffPayload(ct), Rep(0, ZEROED));
      for i := 0 to |inputs|
        invariant page[..] == StageInputs(old(page[..]), ct, inputs, i)
      {
        StageInput(old(page[..]), inputs, i);
      }
      ghost var q := InputsStaged(old(page[..]), ct, inputs, |inputs|);
    }

    method StageInput(ghost p0: seq<byte>, inputs: seq<seq<byte>>, i: nat)
      requires Valid() && IsPage(p0) && i < |inputs| <= MAX_PARAMS
      requires forall k | 0 <= k < |inputs| :: |inputs[k]| <= SLOT
      requires page[..] == StageInputs(p0, ct, inputs, i)
      modifies page
      ensures page[..] == StageInputs(p0, ct, inputs, i + 1)
    {
      Write(OffPayload(ct) + SLOT * i, inputs[i]);
    }

    /** call_puf_ta_init. The payload is left as it is. */
    method CallInit(fc: FuncCall) returns (res: int)
      requires Valid()
      modifies page, param, `invokeArg, `seen, `pending
      ensures res == 0 && pending && seen == old(seen) + [page[..]]
      ensures SawInvoke(page[..], ct, fc.func, AsUint32(sessionId), InitTable(shm))
      ensures param[..] == InitTable(shm)
      ensures invokeArg == InvokeArgs(fc.func, AsUint32(sessionId), 0, 0, 0, old(invokeArg).paramTypes)
      ensures PayloadOf(page[..], ct) == PayloadOf(old(page[..]), ct)
    {
      SetParams(InitTable(shm));
      res := Invoke(fc.func, InitTable(shm));
    }

    /** call_puf_ta_get_commitment. */
    method CallGetCommitment(fc: FuncCall, heap: Heap) returns (res: int)
      requires Valid() && fc.Valid()
      requires Record(fc.func, fc.dataP[..]).Ok(heap.blocks, [32, 32])
      modifies page, param, `invokeArg, `seen, `pending
      ensures res == 0 && pending && seen == old(seen) + [page[..]]
      ensures SawInvoke(page[..], ct, fc.func, AsUint32(sessionId), CommitmentTable(shm))
      ensures param[..] == CommitmentTable(shm)
      ensures invokeArg == InvokeArgs(fc.func, AsUint32(sessionId), 0, 0, 0, old(invokeArg).paramTypes)
      ensures Staged(page[..], ct, PayloadOf(old(page[..]), ct), Inputs(fc.dataP[..], heap.blocks, [32, 32]), 2)
    {
      var inputs := Inputs(fc.dataP[..], heap.blocks, [32, 32]);
      SetParams(CommitmentTable(shm));
      StagePayload(inputs);
      res := Invoke(fc.func, CommitmentTable(shm));
    }

    /** call_puf_ta_get_zk_proofs. */
    method CallGetZkProofs(fc: FuncCall, heap: Heap) returns (res: int)
      requires Valid() && fc.Valid()
      requires Record(fc.func, fc.dataP[..]).Ok(heap.blocks, [32, 32, 64])
      modifies page, param, `invokeArg, `seen, `pending
      ensures res == 0 && pending && seen == old(seen) + [page[..]]
      ensures SawInvoke(page[..], ct, fc.func, AsUint32(sessionId), ProofsTable(shm))
      ensures param[..] == ProofsTable(shm)
      ensures invokeArg == InvokeArgs(fc.func, AsUint32(sessionId), 0, 0, 0, old(invokeArg).paramTypes)
      ensures Staged(page[..], ct, PayloadOf(old(page[..]), ct), Inputs(fc.dataP[..], heap.blocks, [32, 32, 64]), 3)
    {
      var inputs := Inputs(fc.dataP[..], heap.blocks, [32, 32, 64]);
      SetParams(ProofsTable(shm));
      StagePayload(inputs);
      res := Invoke(fc.func, ProofsTable(shm));
    }

    /** cpy_last_result. */
    method CpyLastResult(fc: FuncCall, heap: Heap)
      requires Valid() && fc.Valid() && heap.Valid() && InSlots(param[..])
      requires Owned(fc.dataP[..], heap.blocks) && Copyable(fc.dataP[..])
      modifies heap
      ensures heap.Valid() && heap.refusals == old(heap.refusals)
      ensures Copied(fc.dataP[..], DATA_PORTIONS, heap.blocks, page[..], ct)
      ensures OnlyThese(fc.dataP[..], old(heap.blocks), heap.blocks) && Owned(fc.dataP[..], heap.blocks)
    {
      ghost var ps, b0 := fc.dataP[..], heap.blocks;
      for i := 0 to DATA_PORTIONS
        invariant heap.Valid() && heap.refusals == old(heap.refusals)
        invariant Owned(ps, heap.blocks) && Copied(ps, i, heap.blocks, page[..], ct) && OnlyThese(ps, b0, heap.blocks)
      {
        assert param[..][i].a == i * SLOT;
        CopyPortion(fc.dataP[i], i, heap, ps, b0);
      }
    }

    method CopyPortion(p: Portion, i: nat, heap: Heap, ghost ps: seq<Portion>, ghost b0: Blocks)
      requires Valid() && heap.Valid() && i < |ps| == MAX_PARAMS && p == ps[i] && param[i].a == i * SLOT
      requires Owned(ps, heap.blocks) && Copied(ps, i, heap.blocks, page[..], ct) && OnlyThese(ps, b0, heap.blocks)
      modifies heap
      ensures heap.Valid() && heap.refusals == old(heap.refusals)
      ensures Owned(ps, heap.blocks) && Copied(ps, i + 1, heap.blocks, page[..], ct) && OnlyThese(ps, b0, heap.blocks)
    {
      if p.data.Block? {
        ghost var b := heap.blocks;
        assert p.data.addr in b && |b[p.data.addr]| == p.len;
        hide Owned, OnlyThese, Copied, Faithful;
        var d := Get(page[..], OffPayload(ct) + param[i].a, p.len);
        hide Get;
        heap.Store(p.data, d);
        WholeBlock(d, b[p.data.addr]);
        CopyOne(ps, b0, b, heap.blocks, i, page[..], ct);
      }
    }

    // -------------------------------------------------------------- one challenge

    /** The reply to an invoke call is taken and its results are copied out. */
    method AwaitResult(table: seq<Param>, fc: FuncCall, heap: Heap)
      requires Valid() && fc.Valid() && heap.Valid() && InSlots(table)
      requires pending && seen != [] && seen[|seen| - 1] == page[..]
      requires CallTypeAt(page[..], ct) == CallCode(INVOKE_FUNC)
      requires forall i | 0 <= i < MAX_PARAMS :: ParamAt(page[..], ct, i) == table[i]
      requires Owned(fc.dataP[..], heap.blocks) && Copyable(fc.dataP[..])
      modifies page, param, `invokeArg, `sessionId, `pending, heap
      ensures !pending && sessionId == old(sessionId) && page[..] == ta(seen)
      ensures IsPage(page[..]) && param[..] == table
      ensures invokeArg == old(invokeArg).(ret := InvokeAt(page[..], ct).ret,
              retOrigin := InvokeAt(page[..], ct).retOrigin)
      ensures heap.Valid() && heap.refusals == old(heap.refusals)
      ensures Copied(fc.dataP[..], DATA_PORTIONS, heap.blocks, page[..], ct)
      ensures OnlyThese(fc.dataP[..], old(heap.blocks), heap.blocks) && Owned(fc.dataP[..], heap.blocks)
    {
      ghost var q := page[..];
      Sleep();
      MetaKept(page[..], q, ct);
      forall i | 0 <= i < MAX_PARAMS
        ensures param[..][i].a == i * SLOT
      {
        assert param[i] == ParamAt(page[..], ct, i);
      }
      CpyLastResult(fc, heap);
    }

    /** The arguments of the session are set and handed to the driver. */
    method SendOpen() returns (res: int)
      requires Valid()
      modifies page, `sessionArg, `seen, `pending
      ensures res == 0 && pending && seen == old(seen) + [page[..]]
      ensures SawOpen(page[..], ct)
      ensures sessionArg == old(sessionArg).(uuid := PUF_TA_UUID, clntUuid := CLIENT_UUID, clntLogin := LOGIN_USER,
              cancelId := 0)
    {
      sessionArg := sessionArg.(uuid := PUF_TA_UUID, clntUuid := CLIENT_UUID, clntLogin := LOGIN_USER, cancelId := 0);
      OpenSeen(page[..], ct, sessionArg);
      res := OpenSession(sessionArg, 0, []);
    }

    /** The reply to the open call is taken. */
    method AwaitSession()
      requires Valid() && pending && seen != [] && seen[|seen| - 1] == page[..]
      requires CallTypeAt(page[..], ct) == CallCode(OPEN_SESSION)
      modifies page, param, `invokeArg, `sessionId, `pending
      ensures !pending && page[..] == ta(seen) && IsPage(page[..])
      ensures AsUint32(sessionId) == SessionAt(page[..], ct).session
    {
      ghost var q := page[..];
      Sleep();
      MetaKept(page[..], q, ct);
    }

    // One call, its reply, and the copy of its results. The driver's result is
    // always 0, so that the tests of it between the three are never taken.

    method InitRound(fc: FuncCall, heap: Heap) returns (ghost round: Round)
      requires Valid() && !pending && fc.Valid() && heap.Valid() && Record(fc.func, fc.dataP[..]).Ok(heap.blocks, [])
      modifies page, param, `invokeArg, `sessionId, `seen, `pending, heap
      ensures !pending && sessionId == old(sessionId) && seen == round.h + [round.q] && round.h == old(seen)
      ensures heap.Valid() && heap.refusals == old(heap.refusals) && Owned(fc.dataP[..], heap.blocks)
      ensures page[..] == round.r
      ensures Answered(round, ta, ct, fc.func, AsUint32(sessionId), InitTable(shm), fc.dataP[..],
              old(heap.blocks), heap.blocks)
      ensures Prepared(round.q, ct, old(page[..]), Record(fc.func, fc.dataP[..]), old(heap.blocks), [])
    {
      hide Staged, Inputs, InvokeAt, PayloadOf, Owned, Copied, KeepsMeta;
      ghost var h := seen;
      var res := CallInit(fc);
      ghost var q := page[..];
      AwaitResult(InitTable(shm), fc, heap);
      round := Round(h, q, page[..]);
    }

    method CommitmentRound(fc: FuncCall, heap: Heap) returns (ghost round: Round)
      requires Valid() && !pending && fc.Valid() && heap.Valid()
      requires Record(fc.func, fc.dataP[..]).Ok(heap.blocks, [32, 32])
      modifies page, param, `invokeArg, `sessionId, `seen, `pending, heap
      ensures !pending && sessionId == old(sessionId) && seen == round.h + [round.q] && round.h == old(seen)
      ensures heap.Valid() && heap.refusals == old(heap.refusals) && Owned(fc.dataP[..], heap.blocks)
      ensures page[..] == round.r
      ensures Answered(round, ta, ct, fc.func, AsUint32(sessionId), CommitmentTable(shm), fc.dataP[..],
              old(heap.blocks), heap.blocks)
      ensures Prepared(round.q, ct, old(page[..]), Record(fc.func, fc.dataP[..]), old(heap.blocks), [32, 32])
    {
      hide Staged, Inputs, InvokeAt, PayloadOf, Owned, Copied, KeepsMeta;
      ghost var h := seen;
      var res := CallGetCommitment(fc, heap);
      ghost var q := page[..];
      AwaitResult(CommitmentTable(shm), fc, heap);
      round := Round(h, q, page[..]);
    }

    method ProofsRound(fc: FuncCall, heap: Heap) returns (ghost round: Round)
      requires Valid() && !pending && fc.Valid() && heap.Valid()
      requires Record(fc.func, fc.dataP[..]).Ok(heap.blocks, [32, 32, 64])
      modifies page, param, `invokeArg, `sessionId, `seen, `pending, heap
      ensures !pending && sessionId == old(sessionId) && seen == round.h + [round.q] && round.h == old(seen)
      ensures heap.Valid() && heap.refusals == old(heap.refusals) && Owned(fc.dataP[..], heap.blocks)
      ensures page[..] == round.r
      ensures Answered(round, ta, ct, fc.func, AsUint32(sessionId), ProofsTable(shm), fc.dataP[..],
              old(heap.blocks), heap.blocks)
      ensures Prepared(round.q, ct, old(page[..]), Record(fc.func, fc.dataP[..]), old(heap.blocks), [32, 32, 64])
    {
      hide Staged, Inputs, InvokeAt, PayloadOf, Owned, Copied, KeepsMeta;
      ghost var h := seen;
      var res := CallGetZkProofs(fc, heap);
      ghost var q := page[..];
      AwaitResult(ProofsTable(shm), fc, heap);
      round := Round(h, q, page[..]);
    }

    /** The three invoke calls and the closing of an open session. */
    method Rounds(init: FuncCall, comm: FuncCall, proofs: FuncCall, heap: Heap, ghost seen0: seq<seq<byte>>,
                  ghost q0: seq<byte>)
      returns (res: int)
      requires Valid() && !pending && heap.Valid() && init.Valid() && comm.Valid() && proofs.Valid()
      requires Ready(Record(init.func, init.dataP[..]), Record(comm.func, comm.dataP[..]),
              Record(proofs.func, proofs.dataP[..]), heap.blocks)
      requires SawOpen(q0, ct) && seen == seen0 + [q0] && page[..] == ta(seen)
      requires AsUint32(sessionId) == SessionAt(page[..], ct).session
      modifies page, param, `invokeArg, `sessionId, `seen, `pending, heap
      ensures res == 0 && heap.Valid() && heap.refusals == old(heap.refusals)
      ensures Challenged(ta, ct, shm, seen0, seen, Record(init.func, init.dataP[..]), Record(comm.func, comm.dataP[..]),
                         Record(proofs.func, proofs.dataP[..]), old(heap.blocks), heap.blocks)
    {
      hide SawOpen, SawInvoke, SawClose, Prepared, SessionAt, Owned, Copied, KeepsMeta;
      ghost var i, c, p := Record(init.func, init.dataP[..]), Record(comm.func, comm.dataP[..]),
          Record(proofs.func, proofs.dataP[..]);
      ghost var r0, b0 := page[..], heap.blocks;
      ghost var one := InitRound(init, heap);
      ghost var b1 := heap.blocks;
      StillOk(c, i.ps, [32, 32], b0, b1);
      StillOk(p, i.ps, [32, 32, 64], b0, b1);
      ghost var two := CommitmentRound(comm, heap);
      ghost var b2 := heap.blocks;
      StillOk(p, c.ps, [32, 32, 64], b1, b2);
      ghost var three := ProofsRound(proofs, heap);
      ghost var b3 := heap.blocks;
      res := SendClose();
      assert seen == three.h + [three.q, page[..]];
      Assembled(ta, ct, shm, seen0, q0, r0, one, two, three, page[..], i, c, p, b0, b1, b2, b3);
    }

    /** challenge_puf. A result of 0 says that the driver's calls were made, not
        that any of them succeeded: the results in the replies are not looked at.
        The closing call is not waited for. */
    method ChallengePuf(init: FuncCall, comm: FuncCall, proofs: FuncCall, heap: Heap) returns (res: int)
      requires Valid() && !pending && heap.Valid() && init.Valid() && comm.Valid() && proofs.Valid()
      requires bound && sessionArg.ret == 0 ==>
                 Ready(Record(init.func, init.dataP[..]), Record(comm.func, comm.dataP[..]),
                     Record(proofs.func, proofs.dataP[..]), heap.blocks)
      modifies page, param, this, heap
      ensures heap.Valid() && heap.refusals == old(heap.refusals)
      ensures res == if bound && old(sessionArg.ret) == 0 then 0 else -1
      ensures res != 0 ==> heap.blocks == old(heap.blocks)
      ensures !bound ==> seen == old(seen)
      ensures bound && res != 0 ==>
                |seen| == |old(seen)| + 1 && seen[..|old(seen)|] == old(seen) && SawOpen(seen[|old(seen)|], ct)
      ensures res == 0 ==>
                Challenged(ta, ct, shm, old(seen), seen,
                           Record(init.func, init.dataP[..]), Record(comm.func, comm.dataP[..]),
                           Record(proofs.func, proofs.dataP[..]), old(heap.blocks), heap.blocks)
    {
      if !bound {
        return -1;
      }
      Sleep();
      ghost var seen0 := seen;
      res := SendOpen();
      ghost var q0 := page[..];
      if res != 0 || sessionArg.ret != 0 {
        return -1;
      }
      AwaitSession();
      res := Rounds(init, comm, proofs, heap, seen0, q0);
    }

    method SendClose() returns (res: int)
      requires Valid()
      modifies page, `seen, `pending
      ensures res == 0 && pending && seen == old(seen) + [page[..]]
      ensures SawClose(page[..], ct, AsUint32(sessionId))
    {
      CloseStaged(page[..], ct, CloseArgs(AsUint32(sessionId)));
      res := CloseSession(AsUint32(sessionId));
    }
  }
}
