/** What the other VM is shown in the pages of a challenge, byte by byte, and what
    it leaves there for the records. */
module Pages {
  import opened Bytes
  import opened Memory
  import opened Challenge
  import opened SharedPage
  import opened Staging
  import opened PufCaller

  /** The call type, in the first ct bytes. */
  predicate Coded(q: seq<byte>, ct: nat, code: byte) {
    IsPage(q) && EnumSize(ct) && q[0] == code && forall x | 1 <= x < ct :: q[x] == 0
  }

  lemma CodedAs(q: seq<byte>, ct: nat, code: byte)
    requires IsPage(q) && EnumSize(ct) && CallTypeAt(q, ct) == code
    ensures Coded(q, ct, code)
  {
    hide CallTypeAt;
    CallTypeRead(q, ct, code);
  }

  predicate ZeroBytes(q: seq<byte>, a: nat, b: nat) {
    b <= |q| && forall x | a <= x < b :: q[x] == 0
  }

  /** The arguments of an invoke call. */
  predicate InvokedWith(q: seq<byte>, ct: nat, func: uint32, session: uint32, cancelId: uint32, types: int) {
    && Coded(q, ct, 0)
    && Word(q, ct + 56) == func && Word(q, ct + 60) == session && Word(q, ct + 64) == cancelId
    && Word(q, ct + 68) == 0 && Word(q, ct + 72) == 0 && Word(q, ct + 76) == types
  }

  /** Parameter entry i. */
  predicate Entry(q: seq<byte>, ct: nat, i: nat, attr: uint64, a: int, b: int, c: uint64) {
    && IsPage(q) && EnumSize(ct) && i < 4
    && Long(q, ct + 80 + 32 * i) == attr && Long(q, ct + 88 + 32 * i) == a
    && Long(q, ct + 96 + 32 * i) == b && Long(q, ct + 104 + 32 * i) == c
  }

  /** The page that the driver shows for an invoke call. */
  lemma InvokeOnPage(p: seq<byte>, ct: nat, func: uint32, session: uint32, cancelId: uint32, ps: seq<Param>, num: nat)
    requires IsPage(p) && EnumSize(ct) && Min(num, MAX_PARAMS) <= |ps|
    ensures var q := StageInvoke(p, ct, InvokeArgs(func, session, cancelId, 0, 0, TypesOf(ps, num)), ps, num);
      && InvokedWith(q, ct, func, session, cancelId, TypesOf(ps, num))
      && (forall i | 0 <= i < 4 && i < num :: Entry(q, ct, i, ps[i].attr, ps[i].a, ps[i].b, ps[i].c))
  {
    var v := InvokeArgs(func, session, cancelId, 0, 0, TypesOf(ps, num));
    var q := StageInvoke(p, ct, v, ps, num);
    InvokeStaged(p, ct, v, ps, num);
    CallTypeRead(q, ct, 0);
    InvokeRead(q, ct);
    hide Word, Long, InvokeAt, ParamAt, StageInvoke;
    forall i | 0 <= i < 4 && i < num
      ensures Entry(q, ct, i, ps[i].attr, ps[i].a, ps[i].b, ps[i].c)
    {
      ParamRead(q, ct, i);
    }
  }

  /** The page that the driver shows for an open call, whatever its arguments. */
  lemma OpenCallOnPage(p: seq<byte>, ct: nat, arg: SessionArgs, ps: seq<Param>, num: nat)
    requires IsPage(p) && EnumSize(ct) && Min(num, MAX_PARAMS) <= |ps|
    requires |arg.uuid| == TEE_UUID_LEN && |arg.clntUuid| == TEE_UUID_LEN
    ensures var q := StageOpen(p, ct, OpenArgs(arg, TypesOf(ps, num)), ps, num);
      && Coded(q, ct, 1) && q[ct..ct + 16] == arg.uuid && q[ct + 16..ct + 32] == arg.clntUuid
      && Word(q, ct + 32) == arg.clntLogin && Word(q, ct + 36) == 0 && Word(q, ct + 40) == 0
      && Word(q, ct + 44) == 0 && Word(q, ct + 48) == 0 && Word(q, ct + 52) == TypesOf(ps, num)
      && (forall i: nat | i < 4 && i < num :: Entry(q, ct, i, ps[i].attr, ps[i].a, ps[i].b, ps[i].c))
  {
    var v := OpenArgs(arg, TypesOf(ps, num));
    var q := StageOpen(p, ct, v, ps, num);
    OpenStaged(p, ct, v, ps, num);
    hide Word, Long, SessionAt, ParamAt, StageOpen, CallTypeAt;
    CodedAs(q, ct, 1);
    SessionRead(q, ct);
    forall i: nat | i < 4 && i < num
      ensures Entry(q, ct, i, ps[i].attr, ps[i].a, ps[i].b, ps[i].c)
    {
      ParamRead(q, ct, i);
    }
  }

  lemma ZeroBytesOf(p: seq<byte>, o: nat)
    requires o + 4 <= |p| && Word(p, o) == 0
    ensures p[o] == 0 && p[o + 1] == 0 && p[o + 2] == 0 && p[o + 3] == 0
  {
    var a, b, c, d := p[o], p[o + 1], p[o + 2], p[o + 3];
    assert a + 0x100 * b + 0x1_0000 * c + 0x100_0000 * d == 0;
  }

  lemma ZeroWord(p: seq<byte>, o: nat, e: nat)
    requires o + 4 == e <= |p| && Word(p, o) == 0
    ensures ZeroBytes(p, o, e)
  {
    hide Word;
    ZeroBytesOf(p, o);
    forall x | o <= x < e
      ensures p[x] == 0
    {
      if x == o {
      } else if x == o + 1 {
      } else if x == o + 2 {
      } else {
        assert x == o + 3;
      }
    }
  }

  lemma ZeroJoin(p: seq<byte>, a: nat, b: nat, c: nat)
    requires a <= b <= c && ZeroBytes(p, a, b) && ZeroBytes(p, b, c)
    ensures ZeroBytes(p, a, c)
  {
  }

  /** The two identifiers, a login of 1, and zeros. */
  predicate Opened(q: seq<byte>, ct: nat) {
    && Coded(q, ct, 1)
    && (forall x | ct <= x < ct + 16 :: q[x] == 0x11 * (x - ct))
    && (forall x | ct + 16 <= x < ct + 32 :: q[x] == 0x10 * (x - ct - 15) % 0x100)
    && Word(q, ct + 32) == 1 && ZeroBytes(q, ct + 36, ct + 56)
  }

  lemma Identifiers(q: seq<byte>, ct: nat)
    requires ct + 32 <= |q| && q[ct..ct + 16] == PUF_TA_UUID && q[ct + 16..ct + 32] == CLIENT_UUID
    ensures forall x | ct <= x < ct + 16 :: q[x] == 0x11 * (x - ct)
    ensures forall x | ct + 16 <= x < ct + 32 :: q[x] == 0x10 * (x - ct - 15) % 0x100
  {
    forall x | ct <= x < ct + 16
      ensures q[x] == 0x11 * (x - ct)
    {
      assert q[x] == q[ct..ct + 16][x - ct] == PUF_TA_UUID[x - ct];
    }
    forall x | ct + 16 <= x < ct + 32
      ensures q[x] == 0x10 * (x - ct - 15) % 0x100
    {
      assert q[x] == q[ct + 16..ct + 32][x - ct - 16] == CLIENT_UUID[x - ct - 16];
    }
  }

  lemma OpenFields(q: seq<byte>, ct: nat)
    requires EnumSize(ct) && SawOpen(q, ct)
    ensures q[ct..ct + 16] == PUF_TA_UUID && q[ct + 16..ct + 32] == CLIENT_UUID && Word(q, ct + 32) == 1
    ensures Word(q, ct + 36) == 0 && Word(q, ct + 40) == 0 && Word(q, ct + 44) == 0
    ensures Word(q, ct + 48) == 0 && Word(q, ct + 52) == 0
  {
    hide Word, SessionAt, CallTypeAt;
    SessionRead(q, ct);
  }

  /** The page of an open call without parameters. */
  lemma OpenOnPage(q: seq<byte>, ct: nat)
    requires EnumSize(ct) && SawOpen(q, ct)
    ensures Opened(q, ct)
  {
    hide Word, ZeroBytes, SessionAt, CallTypeAt, Coded;
    CodedAs(q, ct, 1);
    OpenFields(q, ct);
    Identifiers(q, ct);
    ZerosOpen(q, ct);
  }

  lemma ZerosOpen(q: seq<byte>, ct: nat)
    requires ct + 56 <= |q| && Word(q, ct + 36) == 0 && Word(q, ct + 40) == 0 && Word(q, ct + 44) == 0
    requires Word(q, ct + 48) == 0 && Word(q, ct + 52) == 0
    ensures ZeroBytes(q, ct + 36, ct + 56)
  {
    hide Word, ZeroBytes;
    ZeroWord(q, ct + 36, ct + 40);
    ZeroWord(q, ct + 40, ct + 44);
    ZerosLast(q, ct);
    ZeroJoin(q, ct + 36, ct + 40, ct + 44);
    ZeroJoin(q, ct + 36, ct + 44, ct + 56);
  }

  lemma ZerosLast(q: seq<byte>, ct: nat)
    requires ct + 56 <= |q| && Word(q, ct + 44) == 0 && Word(q, ct + 48) == 0 && Word(q, ct + 52) == 0
    ensures ZeroBytes(q, ct + 44, ct + 56)
  {
    hide Word, ZeroBytes;
    ZeroWord(q, ct + 44, ct + 48);
    ZeroWord(q, ct + 48, ct + 52);
    ZeroWord(q, ct + 52, ct + 56);
    ZeroJoin(q, ct + 44, ct + 48, ct + 52);
    ZeroJoin(q, ct + 44, ct + 52, ct + 56);
  }

  /** The session at its place, and zeros in all the other arguments. */
  predicate Closed(q: seq<byte>, ct: nat, session: int) {
    Coded(q, ct, 2) && Word(q, ct + 40) == session && ZeroBytes(q, ct, ct + 40) && ZeroBytes(q, ct + 44, ct + 56)
  }

  lemma ZeroPart(q: seq<byte>, a: nat, b: nat)
    requires a <= b <= |q| && q[a..b] == Rep(0, b - a)
    ensures ZeroBytes(q, a, b)
  {
    forall x | a <= x < b
      ensures q[x] == 0
    {
      assert q[x] == q[a..b][x - a];
    }
  }

  lemma CloseFields(q: seq<byte>, ct: nat, session: uint32)
    requires EnumSize(ct) && SawClose(q, ct, session)
    ensures q[ct..ct + 16] == Rep(0, 16) && q[ct + 16..ct + 32] == Rep(0, 16) && Word(q, ct + 40) == session
    ensures Word(q, ct + 32) == 0 && Word(q, ct + 36) == 0 && Word(q, ct + 44) == 0
    ensures Word(q, ct + 48) == 0 && Word(q, ct + 52) == 0
  {
    hide Word, SessionAt, CallTypeAt;
    SessionRead(q, ct);
  }

  lemma CloseOnPage(q: seq<byte>, ct: nat, session: uint32)
    requires EnumSize(ct) && SawClose(q, ct, session)
    ensures Closed(q, ct, session)
  {
    hide Word, ZeroBytes, SessionAt, CallTypeAt, Coded, Rep;
    CodedAs(q, ct, 2);
    CloseFields(q, ct, session);
    ZeroPart(q, ct, ct + 16);
    ZeroPart(q, ct + 16, ct + 32);
    ZeroWord(q, ct + 32, ct + 36);
    ZeroWord(q, ct + 36, ct + 40);
    ZeroJoin(q, ct, ct + 16, ct + 32);
    ZeroJoin(q, ct, ct + 32, ct + 36);
    ZeroJoin(q, ct, ct + 36, ct + 40);
    ZerosLast(q, ct);
  }

  // ---------------------------------------------------------------- the three calls

  lemma SawOnPage(q: seq<byte>, ct: nat, func: uint32, session: uint32, table: seq<Param>)
    requires EnumSize(ct) && |table| == MAX_PARAMS && SawInvoke(q, ct, func, session, table)
    ensures InvokedWith(q, ct, func, session, 0, TypesOf(table, MAX_PARAMS))
    ensures forall i: nat | i < 4 :: Entry(q, ct, i, table[i].attr, table[i].a, table[i].b, table[i].c)
  {
    CallTypeRead(q, ct, 0);
    InvokeRead(q, ct);
    hide Word, Long, InvokeAt, ParamAt;
    forall i | 0 <= i < 4
      ensures Entry(q, ct, i, table[i].attr, table[i].a, table[i].b, table[i].c)
    {
      ParamRead(q, ct, i);
    }
  }

  /** Four outputs of 32 bytes, one in each slot. */
  predicate InitCall(q: seq<byte>, ct: nat, func: uint32, session: uint32, shm: uint64) {
    && InvokedWith(q, ct, func, session, 0, 0x6666)
    && forall i: nat | i < 4 :: Entry(q, ct, i, 6, 971 * i, 32, shm)
  }

  /** Two inputs and two outputs of 32 bytes. */
  predicate CommitmentCall(q: seq<byte>, ct: nat, func: uint32, session: uint32, shm: uint64) {
    && InvokedWith(q, ct, func, session, 0, 0x6655)
    && forall i: nat | i < 4 :: Entry(q, ct, i, if i < 2 then 5 else 6, 971 * i, 32, shm)
  }

  /** Two inputs of 32 bytes and one of 64 that become outputs, and one output. */
  predicate ProofsCall(q: seq<byte>, ct: nat, func: uint32, session: uint32, shm: uint64) {
    && InvokedWith(q, ct, func, session, 0, 0x6777)
    && forall i: nat | i < 4 :: Entry(q, ct, i, if i < 3 then 7 else 6, 971 * i, if i < 2 then 32 else 64, shm)
  }

  /** The entries that the caller fills in, and their types together. */
  lemma InitTypes(shm: uint64)
    ensures TypesOf(InitTable(shm), MAX_PARAMS) == 0x6666
    ensures forall i | 0 <= i < 4 :: InitTable(shm)[i] == Param(6, 971 * i, 32, shm)
  {
  }

  lemma CommitmentTypes(shm: uint64)
    ensures TypesOf(CommitmentTable(shm), MAX_PARAMS) == 0x6655
    ensures forall i | 0 <= i < 4 :: CommitmentTable(shm)[i] == Param(if i < 2 then 5 else 6, 971 * i, 32, shm)
  {
  }

  lemma ProofsTypes(shm: uint64)
    ensures TypesOf(ProofsTable(shm), MAX_PARAMS) == 0x6777
    ensures forall i | 0 <= i < 4 ::
              ProofsTable(shm)[i] == Param(if i < 3 then 7 else 6, 971 * i, if i < 2 then 32 else 64, shm)
  {
  }

  lemma OneEntry(q: seq<byte>, ct: nat, func: uint32, session: uint32, table: seq<Param>, i: nat,
                 attr: uint64, a: uint64, b: uint64, c: uint64)
    requires EnumSize(ct) && |table| == MAX_PARAMS && SawInvoke(q, ct, func, session, table)
    requires i < 4 && table[i] == Param(attr, a, b, c)
    ensures Entry(q, ct, i, attr, a, b, c)
  {
    SawOnPage(q, ct, func, session, table);
  }

  lemma InitOnPage(q: seq<byte>, ct: nat, func: uint32, session: uint32, shm: uint64)
    requires EnumSize(ct) && SawInvoke(q, ct, func, session, InitTable(shm))
    ensures InitCall(q, ct, func, session, shm)
  {
    hide SawInvoke, InvokedWith, Entry, InitTable, TypesOf;
    SawOnPage(q, ct, func, session, InitTable(shm));
    InitTypes(shm);
    forall i: nat | i < 4
      ensures Entry(q, ct, i, 6, 971 * i, 32, shm)
    {
      OneEntry(q, ct, func, session, InitTable(shm), i, 6, 971 * i, 32, shm);
    }
  }

  lemma CommitmentOnPage(q: seq<byte>, ct: nat, func: uint32, session: uint32, shm: uint64)
    requires EnumSize(ct) && SawInvoke(q, ct, func, session, CommitmentTable(shm))
    ensures CommitmentCall(q, ct, func, session, shm)
  {
    hide SawInvoke, InvokedWith, Entry, CommitmentTable, TypesOf;
    SawOnPage(q, ct, func, session, CommitmentTable(shm));
    CommitmentTypes(shm);
    forall i: nat | i < 4
      ensures Entry(q, ct, i, if i < 2 then 5 else 6, 971 * i, 32, shm)
    {
      OneEntry(q, ct, func, session, CommitmentTable(shm), i, if i < 2 then 5 else 6, 971 * i, 32, shm);
    }
  }

  lemma ProofsOnPage(q: seq<byte>, ct: nat, func: uint32, session: uint32, shm: uint64)
    requires EnumSize(ct) && SawInvoke(q, ct, func, session, ProofsTable(shm))
    ensures ProofsCall(q, ct, func, session, shm)
  {
    hide SawInvoke, InvokedWith, Entry, ProofsTable, TypesOf;
    SawOnPage(q, ct, func, session, ProofsTable(shm));
    ProofsTypes(shm);
    forall i: nat | i < 4
      ensures Entry(q, ct, i, if i < 3 then 7 else 6, 971 * i, if i < 2 then 32 else 64, shm)
    {
      OneEntry(q, ct, func, session, ProofsTable(shm), i, if i < 3 then 7 else 6, 971 * i, if i < 2 then 32 else 64,
        shm);
    }
  }

  /** The other side may read an entry of an input type, and leave a result in one
      of an output type. */
  predicate IsInput(attr: int) {
    attr == 5 || attr == 7
  }

  predicate IsOutput(attr: int) {
    attr == 6 || attr == 7
  }

  /** The first n slots are staged with inputs, and results are left in those
      from number m on. */
  predicate UsedAs(q: seq<byte>, ct: nat, n: nat, m: nat) {
    && IsPage(q) && EnumSize(ct)
    && forall i | 0 <= i < 4 ::
         var attr := Long(q, ct + 80 + 32 * i); (IsInput(attr) <==> i < n) && (IsOutput(attr) <==> i >= m)
  }

  /** The initialisation has no inputs and four results, the commitment two and
      two, and the proofs three inputs and four results. */
  lemma TypesMatchUse(q: seq<byte>, ct: nat, func: uint32, session: uint32, shm: uint64)
    ensures InitCall(q, ct, func, session, shm) ==> UsedAs(q, ct, 0, 0)
    ensures CommitmentCall(q, ct, func, session, shm) ==> UsedAs(q, ct, 2, 2)
    ensures ProofsCall(q, ct, func, session, shm) ==> UsedAs(q, ct, 3, 0)
  {
    hide Long, InvokedWith;
    if InitCall(q, ct, func, session, shm) {
      assert Entry(q, ct, 0, 6, 971 * 0, 32, shm);
      forall i | 0 <= i < 4
        ensures Long(q, ct + 80 + 32 * i) == 6
      {
        assert Entry(q, ct, i, 6, 971 * i, 32, shm);
      }
    }
    if CommitmentCall(q, ct, func, session, shm) {
      assert Entry(q, ct, 0, 5, 971 * 0, 32, shm);
      forall i | 0 <= i < 4
        ensures Long(q, ct + 80 + 32 * i) == if i < 2 then 5 else 6
      {
        assert Entry(q, ct, i, if i < 2 then 5 else 6, 971 * i, 32, shm);
      }
    }
    if ProofsCall(q, ct, func, session, shm) {
      assert Entry(q, ct, 0, 7, 971 * 0, 32, shm);
      forall i | 0 <= i < 4
        ensures Long(q, ct + 80 + 32 * i) == if i < 3 then 7 else 6
      {
        assert Entry(q, ct, i, if i < 3 then 7 else 6, 971 * i, if i < 2 then 32 else 64, shm);
      }
    }
  }

  // ---------------------------------------------------------------- inputs and results

  /** The inputs of a call at their places in the page: portion i of the record at
      the start of slot i; of the first 1024 bytes the rest is zero, and everything
      above them that is no input is what the reply before had there. */
  lemma InputsOnPage(q: seq<byte>, ct: nat, r: seq<byte>, rec: Record, blocks: Blocks, sizes: seq<nat>, x: nat)
    requires Prepared(q, ct, r, rec, blocks, sizes) && x < 3884 && forall i | 0 <= i < |sizes| :: sizes[i] <= 971
    ensures var i, j := x / 971, x % 971;
      q[ct + 208 + x]
      == if i < |sizes| && j < sizes[i] then blocks[rec.ps[i].data.addr][j]
         else if sizes != [] && x < 1024 then 0
         else r[ct + 208 + x]
  {
    assert PayloadOf(q, ct)[x] == q[ct + 208 + x] && PayloadOf(r, ct)[x] == r[ct + 208 + x];
    if sizes != [] {
      var inputs := Inputs(rec.ps, blocks, sizes);
      assert PayloadOf(q, ct)[x] == StagedByte(PayloadOf(r, ct), inputs, |sizes|, x);
      hide PayloadOf;
      if x / 971 < |sizes| {
        assert inputs[x / 971] == Supply(rec.ps[x / 971], blocks, sizes[x / 971]);
      }
    }
  }

  /** Byte j of portion i is byte j of slot i of the reply. */
  lemma ResultsOnPage(ps: seq<Portion>, blocks: Blocks, r: seq<byte>, ct: nat, i: nat, j: nat)
    requires Copied(ps, DATA_PORTIONS, blocks, r, ct) && i < 4 && ps[i].data.Block? && j < ps[i].len
    ensures blocks[ps[i].data.addr][j] == r[ct + 208 + 971 * i + j]
  {
  }

  // ---------------------------------------------------------------- a challenge

  /** The session id of a reply to an open call. */
  function SessionIn(r: seq<byte>, ct: nat): (session: uint32)
    requires IsPage(r) && EnumSize(ct)
  {
    SessionRead(r, ct);
    Word(r, ct + 40)
  }

  /** The last five of the pages shown: every call carries the session of the reply
      to the first, read from bytes 40 to 43 of the session arguments there. */
  ghost predicate FivePages(ta: seq<seq<byte>> -> seq<byte>, ct: nat, shm: uint64, k: nat, seen: seq<seq<byte>>,
                            init: uint32, comm: uint32, proofs: uint32) {
    && |seen| == k + 5 && EnumSize(ct) && IsPage(ta(seen[..k + 1]))
    && var session := SessionIn(ta(seen[..k + 1]), ct);
    && Opened(seen[k], ct)
    && InitCall(seen[k + 1], ct, init, session, shm)
    && CommitmentCall(seen[k + 2], ct, comm, session, shm)
    && ProofsCall(seen[k + 3], ct, proofs, session, shm)
    && Closed(seen[k + 4], ct, session)
  }

  lemma ChallengeOnPages(ta: seq<seq<byte>> -> seq<byte>, ct: nat, shm: uint64, seen0: seq<seq<byte>>,
                         seen: seq<seq<byte>>, init: Record, comm: Record, proofs: Record,
                         before: Blocks, after: Blocks)
    requires EnumSize(ct) && Ready(init, comm, proofs, before)
    requires Challenged(ta, ct, shm, seen0, seen, init, comm, proofs, before, after)
    ensures FivePages(ta, ct, shm, |seen0|, seen, init.func, comm.func, proofs.func)
  {
    hide SawOpen, SawInvoke, SawClose, Prepared, Copied, Opened, InitCall, CommitmentCall, ProofsCall, Closed;
    var k := |seen0|;
    SessionIs(ta(seen[..k + 1]), ct);
    var session := SessionAt(ta(seen[..k + 1]), ct).session;
    hide SessionIn, SessionAt;
    OpenOnPage(seen[k], ct);
    InitOnPage(seen[k + 1], ct, init.func, session, shm);
    CommitmentOnPage(seen[k + 2], ct, comm.func, session, shm);
    ProofsOnPage(seen[k + 3], ct, proofs.func, session, shm);
    CloseOnPage(seen[k + 4], ct, session);
  }

  lemma SessionIs(r: seq<byte>, ct: nat)
    requires IsPage(r) && EnumSize(ct)
    ensures SessionIn(r, ct) == SessionAt(r, ct).session
  {
    SessionRead(r, ct);
  }

  /** The session id is kept as an int and sent as a uint32_t: the same 32 bits. */
  lemma SessionSurvives(v: uint32)
    ensures AsUint32(AsInt32(v)) == v && (AsInt32(v) - v) % 0x1_0000_0000 == 0
    ensures v < 0x8000_0000 ==> AsInt32(v) == v
  {
  }
}
