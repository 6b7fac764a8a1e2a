/** The page shared by the two VMs: the layout macros, the packed message they
    have to agree with, and the encoding of its header fields. */
module SharedPage {
  import opened Bytes

  // ---------------------------------------------------------------- layout, for any sizes

  /** The sizes the layout macros are computed from. */
  datatype Layout = Layout(callType: nat, sessionArgs: nat, invokeArgs: nat, param: nat, maxParams: nat, full: nat) {
    function HeaderSize(): nat {
      callType + sessionArgs + invokeArgs + maxParams * param
    }

    /** The header leaves room, as the static assertion demands. */
    predicate Ok() {
      maxParams > 0 && HeaderSize() < full
    }

    function PayloadSize(): (n: nat)
      requires Ok()
    {
      (full - HeaderSize()) / 4 * 4
    }

    function SlotSize(): nat
      requires Ok()
    {
      PayloadSize() / maxParams
    }

    function OffsetSessionArgs(): nat {
      callType
    }

    function OffsetInvokeArgs(): nat {
      OffsetSessionArgs() + sessionArgs
    }

    function OffsetParams(): nat {
      OffsetInvokeArgs() + invokeArgs
    }

    function OffsetPayload(): nat {
      OffsetParams() + maxParams * param
    }

    function MemrefOffset(i: nat): nat
      requires Ok()
    {
      i * SlotSize()
    }

    /** The sizes of the fields of the packed message, in declaration order. */
    function FieldSizes(): seq<nat>
      requires Ok()
    {
      [callType, sessionArgs, invokeArgs, maxParams * param, PayloadSize()]
    }
  }

  /** Where field k of a packed struct starts. */
  function PackedOffset(sizes: seq<nat>, k: nat): nat
    requires k <= |sizes|
  {
    if k == 0 then 0 else PackedOffset(sizes, k - 1) + sizes[k - 1]
  }

  lemma MulMonotone(a: nat, b: nat, n: nat)
    requires a <= b
    ensures a * n <= b * n
  {
  }

  lemma SlotsFit(l: Layout, i: nat)
    requires l.Ok() && i < l.maxParams
    ensures l.MemrefOffset(i) + l.SlotSize() == l.MemrefOffset(i + 1) <= l.PayloadSize()
  {
    var s, n := l.SlotSize(), l.maxParams;
    assert i * s + s == (i + 1) * s;
    MulMonotone(i + 1, n, s);
    assert n * s <= l.PayloadSize();
  }

  /** The macros are the packed offsets, the message fits the page with less
      than four bytes to spare, and the payload pointer plus a is payload[a]. */
  lemma MacrosMatchStruct(l: Layout, base: nat, a: nat)
    requires l.Ok()
    ensures PackedOffset(l.FieldSizes(), 0) == 0
    ensures PackedOffset(l.FieldSizes(), 1) == l.OffsetSessionArgs()
    ensures PackedOffset(l.FieldSizes(), 2) == l.OffsetInvokeArgs()
    ensures PackedOffset(l.FieldSizes(), 3) == l.OffsetParams()
    ensures PackedOffset(l.FieldSizes(), 4) == l.OffsetPayload() == l.HeaderSize()
    ensures l.full - 4 < PackedOffset(l.FieldSizes(), 5) <= l.full
    ensures (base + l.OffsetPayload()) + a == base + (PackedOffset(l.FieldSizes(), 4) + a)
    ensures l.PayloadSize() % 4 == 0
  {
    var f := l.FieldSizes();
    assert PackedOffset(f, 1) == PackedOffset(f, 0) + f[0];
    assert PackedOffset(f, 2) == PackedOffset(f, 1) + f[1];
    assert PackedOffset(f, 3) == PackedOffset(f, 2) + f[2];
    assert PackedOffset(f, 4) == PackedOffset(f, 3) + f[3];
    assert PackedOffset(f, 5) == PackedOffset(f, 4) + f[4];
  }

  /** Slots lie inside the payload and do not meet. */
  lemma SlotsDisjoint(l: Layout, i: nat, j: nat)
    requires l.Ok() && i < j < l.maxParams
    ensures l.MemrefOffset(i) + l.SlotSize() <= l.MemrefOffset(j)
    ensures l.MemrefOffset(j) + l.SlotSize() <= l.PayloadSize()
  {
    SlotsFit(l, i);
    SlotsFit(l, j);
    MulMonotone(i + 1, j, l.SlotSize());
  }

  // ---------------------------------------------------------------- the layout in use

  const PAGE_SIZE: nat := 0x1000
  const MAX_PARAMS: nat := 4
  const TEE_UUID_LEN: nat := 16
  const ZEROED: nat := 1024

  /** ct is sizeof(tee_call_type_t), which the compiler chooses. */
  function Hv(ct: nat): Layout {
    Layout(ct, 56, 24, 32, MAX_PARAMS, PAGE_SIZE)
  }

  predicate EnumSize(ct: nat) {
    1 <= ct <= 4
  }

  /** The numbers behind the macros, for every size of the call type. */
  lemma HvNumbers(ct: nat)
    requires EnumSize(ct)
    ensures var l := Hv(ct);
      && l.Ok() && l.OffsetPayload() == ct + 208
      && l.PayloadSize() == 3884 >= ZEROED && l.SlotSize() == 971
  {
  }

  // ---------------------------------------------------------------- pages as byte sequences

  predicate IsPage(p: seq<byte>) {
    |p| == PAGE_SIZE
  }

  function Put(p: seq<byte>, off: nat, d: seq<byte>): (q: seq<byte>)
    requires off + |d| <= |p|
    ensures |q| == |p|
  {
    p[..off] + d + p[off + |d|..]
  }

  function Get(p: seq<byte>, off: nat, n: nat): (d: seq<byte>)
    requires off + n <= |p|
    ensures |d| == n
  {
    p[off..off + n]
  }

  lemma PutGet(p: seq<byte>, off: nat, d: seq<byte>)
    requires off + |d| <= |p|
    ensures Get(Put(p, off, d), off, |d|) == d
  {
  }

  lemma PutOther(p: seq<byte>, off: nat, d: seq<byte>, x: nat, n: nat)
    requires off + |d| <= |p| && x + n <= |p| && (x + n <= off || off + |d| <= x)
    ensures Get(Put(p, off, d), x, n) == Get(p, x, n)
  {
  }

  // ---------------------------------------------------------------- header fields

  datatype CallType = INVOKE_FUNC | OPEN_SESSION | CLOSE_SESSION

  function CallCode(t: CallType): byte {
    match t
    case INVOKE_FUNC => 0
    case OPEN_SESSION => 1
    case CLOSE_SESSION => 2
  }

  datatype InvokeArgs = InvokeArgs(func: uint32, session: uint32, cancelId: uint32, ret: uint32, retOrigin: uint32,
                                   paramTypes: uint32)

  datatype SessionArgs = SessionArgs(uuid: seq<byte>, clntUuid: seq<byte>, clntLogin: uint32, cancelId: uint32,
                                     session: uint32, ret: uint32, retOrigin: uint32, paramTypes: uint32)

  datatype Param = Param(attr: uint64, a: uint64, b: uint64, c: uint64)

  function CallTypeBytes(t: CallType, ct: nat): (d: seq<byte>)
    ensures |d| == ct
  {
    LE(CallCode(t), ct)
  }

  function InvokeBytes(v: InvokeArgs): (d: seq<byte>)
    ensures |d| == 24
  {
    LE32(v.func) + LE32(v.session) + LE32(v.cancelId) + LE32(v.ret) + LE32(v.retOrigin) + LE32(v.paramTypes)
  }

  function InvokeOf(d: seq<byte>): InvokeArgs
    requires |d| == 24
  {
    InvokeArgs(U32(d[0..4]), U32(d[4..8]), U32(d[8..12]), U32(d[12..16]), U32(d[16..20]), U32(d[20..24]))
  }

  function SessionBytes(v: SessionArgs): (d: seq<byte>)
    requires |v.uuid| == TEE_UUID_LEN && |v.clntUuid| == TEE_UUID_LEN
    ensures |d| == 56
  {
    v.uuid + v.clntUuid
    + (LE32(v.clntLogin) + LE32(v.cancelId) + LE32(v.session) + LE32(v.ret) + LE32(v.retOrigin) + LE32(v.paramTypes))
  }

  function SessionOf(d: seq<byte>): SessionArgs
    requires |d| == 56
  {
    var w := InvokeOf(d[32..56]);
    SessionArgs(d[..16], d[16..32], w.func, w.session, w.cancelId, w.ret, w.retOrigin, w.paramTypes)
  }

  function ParamBytes(v: Param): (d: seq<byte>)
    ensures |d| == 32
  {
    LE64(v.attr) + LE64(v.a) + LE64(v.b) + LE64(v.c)
  }

  function ParamOf(d: seq<byte>): Param
    requires |d| == 32
  {
    Param(U64(d[0..8]), U64(d[8..16]), U64(d[16..24]), U64(d[24..32]))
  }

  /** Six parts of four bytes each, cut out of their concatenation. */
  lemma SixParts(a: seq<byte>, b: seq<byte>, c: seq<byte>, d: seq<byte>, e: seq<byte>, f: seq<byte>, s: seq<byte>)
    requires |a| == |b| == |c| == |d| == |e| == |f| == 4 && s == a + b + c + d + e + f
    ensures s[0..4] == a && s[4..8] == b && s[8..12] == c && s[12..16] == d && s[16..20] == e && s[20..24] == f
  {
    var l, r := a + b + c, d + e + f;
    assert s == l + r;
    assert l[0..4] == a && l[4..8] == b && l[8..12] == c;
    assert r[0..4] == d && r[4..8] == e && r[8..12] == f;
    assert s[0..4] == l[0..4] && s[4..8] == l[4..8] && s[8..12] == l[8..12];
    assert s[12..16] == r[0..4] && s[16..20] == r[4..8] && s[20..24] == r[8..12];
  }

  lemma InvokeRoundTrip(v: InvokeArgs)
    ensures InvokeOf(InvokeBytes(v)) == v
  {
    hide LE32, U32;
    SixParts(LE32(v.func), LE32(v.session), LE32(v.cancelId), LE32(v.ret), LE32(v.retOrigin), LE32(v.paramTypes),
        InvokeBytes(v));
    RoundTrip32(v.func);
    RoundTrip32(v.session);
    RoundTrip32(v.cancelId);
    RoundTrip32(v.ret);
    RoundTrip32(v.retOrigin);
    RoundTrip32(v.paramTypes);
  }

  lemma SessionRoundTrip(v: SessionArgs)
    requires |v.uuid| == TEE_UUID_LEN && |v.clntUuid| == TEE_UUID_LEN
    ensures SessionOf(SessionBytes(v)) == v
  {
    hide LE32, U32;
    var w := InvokeArgs(v.clntLogin, v.cancelId, v.session, v.ret, v.retOrigin, v.paramTypes);
    var d := SessionBytes(v);
    assert d == v.uuid + v.clntUuid + InvokeBytes(w);
    hide InvokeBytes, InvokeOf;
    assert d[..16] == v.uuid && d[16..32] == v.clntUuid && d[32..56] == InvokeBytes(w);
    InvokeRoundTrip(w);
  }

  lemma FourParts(a: seq<byte>, b: seq<byte>, c: seq<byte>, d: seq<byte>, s: seq<byte>)
    requires |a| == |b| == |c| == |d| == 8 && s == a + b + c + d
    ensures s[0..8] == a && s[8..16] == b && s[16..24] == c && s[24..32] == d
  {
    var l, r := a + b, c + d;
    assert s == l + r;
    assert s[0..8] == l[0..8] && s[8..16] == l[8..16] && s[16..24] == r[0..8] && s[24..32] == r[8..16];
  }

  lemma ParamRoundTrip(v: Param)
    ensures ParamOf(ParamBytes(v)) == v
  {
    hide LE64, U64;
    FourParts(LE64(v.attr), LE64(v.a), LE64(v.b), LE64(v.c), ParamBytes(v));
    RoundTrip64(v.attr);
    RoundTrip64(v.a);
    RoundTrip64(v.b);
    RoundTrip64(v.c);
  }

  lemma {:induction false} CallTypeRoundTrip(t: CallType, ct: nat)
    requires EnumSize(ct)
    ensures UnLE(CallTypeBytes(t, ct)) == CallCode(t)
  {
    assert Pow256(1) == 256 && Pow256(ct) >= Pow256(ct - 1);
    assert CallCode(t) < Pow256(ct);
    DecodeEncode(CallCode(t), ct);
  }

  // ---------------------------------------------------------------- paramTypes

  const ATTR_NONE: uint32 := 0
  const ATTR_MEMREF_INPUT: uint64 := 5
  const ATTR_MEMREF_OUTPUT: uint64 := 6
  const ATTR_MEMREF_INOUT: uint64 := 7

  /** attr & TEE_PARAM_ATTR_TYPE_MASK, a mask of the low eight bits. */
  function TypeOf(attr: uint64): uint32 {
    attr % 0x100
  }

  /** CROSSCON_PARAM_TYPES. The four nibbles are in disjoint places, so that
      combining them is adding them. */
  function ParamTypes(t0: uint32, t1: uint32, t2: uint32, t3: uint32): uint32 {
    t0 % 0x10 + (t1 % 0x10) * 0x10 + (t2 % 0x10) * 0x100 + (t3 % 0x10) * 0x1000
  }

  function Nibble(types: uint32, i: nat): uint32
    requires i < MAX_PARAMS
  {
    if i == 0 then types % 0x10
    else if i == 1 then types / 0x10 % 0x10
    else if i == 2 then types / 0x100 % 0x10
    else types / 0x1000 % 0x10
  }

  /** The driver's paramTypes for num parameters out of ps. */
  function TypesOf(ps: seq<Param>, num: nat): uint32
    requires Min(num, MAX_PARAMS) <= |ps|
  {
    ParamTypes(if num > 0 then TypeOf(ps[0].attr) else ATTR_NONE, if num > 1 then TypeOf(ps[1].attr) else ATTR_NONE,
               if num > 2 then TypeOf(ps[2].attr) else ATTR_NONE, if num > 3 then TypeOf(ps[3].attr) else ATTR_NONE)
  }

  lemma Digits(a: nat, b: nat, c: nat, d: nat)
    requires a < 16 && b < 16 && c < 16 && d < 16
    ensures var x := a + b * 0x10 + c * 0x100 + d * 0x1000;
      x % 0x10 == a && x / 0x10 % 0x10 == b && x / 0x100 % 0x10 == c && x / 0x1000 % 0x10 == d && x < 0x10000
  {
    var x := a + b * 0x10 + c * 0x100 + d * 0x1000;
    assert x / 0x10 == b + c * 0x10 + d * 0x100;
    assert x / 0x100 == c + d * 0x10;
    assert x / 0x1000 == d;
  }

  /** Each nibble is the masked type of its own parameter, and NONE beyond num. */
  lemma NibblesAgree(ps: seq<Param>, num: nat, i: nat)
    requires Min(num, MAX_PARAMS) <= |ps| && i < MAX_PARAMS
    ensures Nibble(TypesOf(ps, num), i) == (if i < num then TypeOf(ps[i].attr) % 0x10 else 0)
    ensures TypesOf(ps, num) < 0x10000
  {
    Digits(if num > 0 then TypeOf(ps[0].attr) % 0x10 else 0, if num > 1 then TypeOf(ps[1].attr) % 0x10 else 0,
           if num > 2 then TypeOf(ps[2].attr) % 0x10 else 0, if num > 3 then TypeOf(ps[3].attr) % 0x10 else 0);
  }

  /** The low four bits of each attribute that is given, and nothing for the others. */
  lemma TypesAre(ps: seq<Param>, num: nat)
    requires Min(num, MAX_PARAMS) <= |ps|
    ensures TypesOf(ps, num)
         == (if num > 0 then ps[0].attr % 16 else 0) + 0x10 * (if num > 1 then ps[1].attr % 16 else 0)
            + 0x100 * (if num > 2 then ps[2].attr % 16 else 0) + 0x1000 * (if num > 3 then ps[3].attr % 16 else 0)
  {
    forall i | 0 <= i < Min(num, MAX_PARAMS)
      ensures TypeOf(ps[i].attr) % 0x10 == ps[i].attr % 16
    {
      LowNibble(ps[i].attr);
    }
    hide TypeOf;
  }

  lemma LastHexDigit(x: nat, q: nat, r: nat)
    requires x == 16 * q + r && r < 16
    ensures x % 16 == r
  {
  }

  lemma LowNibble(attr: uint64)
    ensures TypeOf(attr) % 0x10 == attr % 16
  {
    var q, t := attr / 0x100, attr % 0x100;
    assert attr == 16 * (16 * q + t / 16) + t % 16;
    LastHexDigit(attr, 16 * q + t / 16, t % 16);
  }

  // ---------------------------------------------------------------- the macro on machine words

  /** Bitwise or and and of unsigned numbers, bit by bit, and the shift of a
      32-bit word. */
  function BitOr(a: nat, b: nat): nat
    decreases a + b
  {
    if a == 0 && b == 0 then 0
    else 2 * BitOr(a / 2, b / 2) + if a % 2 == 1 || b % 2 == 1 then 1 else 0
  }

  function BitAnd(a: nat, b: nat): (r: nat)
    ensures r <= a
  {
    if a == 0 || b == 0 then 0
    else 2 * BitAnd(a / 2, b / 2) + if a % 2 == 1 && b % 2 == 1 then 1 else 0
  }

  function Pow2(k: nat): (p: nat)
    ensures p > 0
  {
    if k == 0 then 1 else 2 * Pow2(k - 1)
  }

  function Shl(a: uint32, k: nat): uint32 {
    a * Pow2(k) % 0x1_0000_0000
  }

  lemma Halves(x: nat, m: nat)
    requires m > 0
    ensures x % (2 * m) == 2 * (x / 2 % m) + x % 2
  {
    var h, b := x / 2, x % 2;
    var q, r := h / m, h % m;
    assert x == 2 * h + b && h == q * m + r;
    assert x == q * (2 * m) + (2 * r + b) by {
      assert 2 * (q * m) == q * (2 * m);
    }
    ModIs(x, q, 2 * m, 2 * r + b);
  }

  lemma MulOrder(a: int, b: int, m: nat)
    ensures a <= b ==> a * m <= b * m
  {
  }

  lemma ModIs(x: nat, q: nat, m: nat, r: nat)
    requires m > 0 && r < m && x == q * m + r
    ensures x % m == r
  {
    var d := x / m - q;
    assert (x / m) * m == x - x % m;
    assert d * m == (x / m) * m - q * m;
    MulOrder(1, d, m);
    MulOrder(d, -1, m);
  }

  /** Masking with k ones keeps the last k bits. */
  lemma {:induction false} MaskIsMod(a: nat, k: nat)
    ensures BitAnd(a, Pow2(k) - 1) == a % Pow2(k)
    decreases k
  {
    if k > 0 {
      var m := Pow2(k - 1);
      var ones := 2 * m - 1;
      assert ones == Pow2(k) - 1 && ones / 2 == m - 1 && ones % 2 == 1;
      assert BitAnd(a, ones) == 2 * BitAnd(a / 2, m - 1) + a % 2;
      MaskIsMod(a / 2, k - 1);
      hide BitAnd, Pow2;
      Halves(a, m);
    }
  }

  /** Numbers without a common bit are added by combining them. */
  lemma {:induction false} OrIsSum(a: nat, h: nat, k: nat)
    requires a < Pow2(k)
    ensures BitOr(a, h * Pow2(k)) == a + h * Pow2(k)
    decreases k
  {
    if k == 0 {
      OrZero(h);
    } else {
      var m := Pow2(k - 1);
      var b := h * Pow2(k);
      assert b == 2 * (h * m);
      assert b / 2 == h * m && b % 2 == 0;
      OrIsSum(a / 2, h, k - 1);
    }
  }

  lemma {:induction false} OrZero(h: nat)
    ensures BitOr(0, h) == h
  {
    if h > 0 {
      OrZero(h / 2);
    }
  }

  /** The macro as it is written. */
  function Macro(t0: uint32, t1: uint32, t2: uint32, t3: uint32): nat {
    BitOr(BitOr(BitOr(BitAnd(t0, 0xF), Shl(BitAnd(t1, 0xF), 4)), Shl(BitAnd(t2, 0xF), 8)),
          Shl(BitAnd(t3, 0xF), 12))
  }

  lemma Shifted(t: uint32, k: nat, m: nat)
    requires (k == 0 && m == 1) || (k == 4 && m == 0x10) || (k == 8 && m == 0x100) || (k == 12 && m == 0x1000)
    ensures Shl(BitAnd(t, 0xF), k) == t % 0x10 * m && BitAnd(t, 0xF) == t % 0x10
    ensures Pow2(k) == m
  {
    Powers();
    MaskIsMod(t, 4);
  }

  /** It is the sum by which the model computes the parameter types. */
  lemma MacroIsParamTypes(t0: uint32, t1: uint32, t2: uint32, t3: uint32)
    ensures Macro(t0, t1, t2, t3) == ParamTypes(t0, t1, t2, t3)
  {
    hide Shl, BitAnd, BitOr, Pow2;
    Shifted(t0, 0, 1);
    Shifted(t1, 4, 0x10);
    Shifted(t2, 8, 0x100);
    Shifted(t3, 12, 0x1000);
    var a, b, c, d := t0 % 0x10, t1 % 0x10, t2 % 0x10, t3 % 0x10;
    OrIsSum(a, b, 4);
    OrIsSum(a + b * 0x10, c, 8);
    OrIsSum(a + b * 0x10 + c * 0x100, d, 12);
  }

  lemma Powers()
    ensures Pow2(4) == 0x10 && Pow2(8) == 0x100 && Pow2(12) == 0x1000
  {
    assert Pow2(2) == 4;
    assert Pow2(6) == 4 * Pow2(4);
    assert Pow2(10) == 4 * Pow2(8);
  }

  /** attr & TEE_PARAM_ATTR_TYPE_MASK is what the model takes for it. */
  lemma TypeIsMasked(attr: uint64)
    ensures BitAnd(attr, 0xFF) == TypeOf(attr)
  {
    Powers();
    MaskIsMod(attr, 8);
  }
}
