/** Challenge records, their buffers, and the two ends of their exchange. */
module Challenge {
  import opened Bytes
  import opened Memory

  const DATA_PORTIONS: nat := 4
  const ID_LEN: nat := 4

  const INIT_FUNC_ID: uint32 := 0x00112233
  const GET_COMMITMENT_FUNC_ID: uint32 := 0x11223344
  const GET_ZK_PROOFS_FUNC_ID: uint32 := 0x22334455

  const PATTERN_INIT_COMMIT: seq<byte> := [32, 32, 32, 32]
  const PATTERN_PROOFS: seq<byte> := [32, 32, 64, 64]

  class FuncCall {
    var func: uint32
    const dataP: array<Portion>

    ghost predicate Valid() {
      dataP.Length == DATA_PORTIONS
    }

    /** A zero-initialised record. */
    constructor ()
      ensures Valid() && fresh(dataP) && func == 0
      ensures forall i | 0 <= i < DATA_PORTIONS :: dataP[i] == Portion(0, Null)
    {
      func := 0;
      dataP := new Portion[DATA_PORTIONS](_ => Portion(0, Null));
    }
  }

  // ---------------------------------------------------------------- buffers

  /** Every portion is NULL or the only pointer to a live block of its length. */
  ghost predicate Owned(ps: seq<Portion>, blocks: Blocks) {
    && (forall i | 0 <= i < |ps| && ps[i].data.Block? ::
          ps[i].data.addr in blocks && |blocks[ps[i].data.addr]| == ps[i].len)
    && Distinct(ps)
  }

  ghost predicate Distinct(ps: seq<Portion>) {
    forall i, j | 0 <= i < j < |ps| && ps[i].data.Block? && ps[j].data.Block? :: ps[i].data.addr != ps[j].data.addr
  }

  ghost predicate AllNull(ps: seq<Portion>) {
    forall i | 0 <= i < |ps| :: ps[i].data == Null
  }

  predicate Holds(ps: seq<Portion>, a: nat) {
    exists i :: 0 <= i < |ps| && ps[i].data == Block(a)
  }

  /** The first n portions of ps as initFunc leaves them when it succeeds. */
  ghost predicate Zeroed(ps: seq<Portion>, n: nat, pattern: seq<byte>, blocks: Blocks)
    requires n <= |ps| && n <= |pattern|
  {
    forall i | 0 <= i < n ::
      && ps[i].len == pattern[i]
      && (ps[i].data.Block? <==> pattern[i] > 0)
      && (ps[i].data.Block? ==> ps[i].data.addr in blocks && blocks[ps[i].data.addr] == Rep(0, pattern[i]))
  }

  /** after is before with exactly the blocks of ps added. */
  ghost predicate Adds(ps: seq<Portion>, before: Blocks, after: Blocks) {
    && (forall a :: a in after <==> a in before || Holds(ps, a))
    && (forall a :: a in before ==> !Holds(ps, a) && a in after && after[a] == before[a])
  }

  /** after is before with exactly the blocks of ps removed. */
  ghost predicate Removes(ps: seq<Portion>, before: Blocks, after: Blocks) {
    && (forall a :: a in after <==> a in before && !Holds(ps, a))
    && (forall a :: a in after ==> after[a] == before[a])
  }

  lemma AddThenRemove(ps: seq<Portion>, before: Blocks, mid: Blocks, after: Blocks)
    requires Adds(ps, before, mid) && Removes(ps, mid, after)
    ensures after == before
  {
  }

  /** Only blocks of ps differ. */
  ghost predicate OnlyThese(ps: seq<Portion>, before: Blocks, after: Blocks) {
    && before.Keys == after.Keys
    && forall a | a in before && !Holds(ps, a) :: after[a] == before[a]
  }

  /** The two records share no block. */
  ghost predicate Apart(ps: seq<Portion>, qs: seq<Portion>) {
    forall i, j | 0 <= i < |ps| && 0 <= j < |qs| && ps[i].data.Block? && qs[j].data.Block? ::
        ps[i].data.addr != qs[j].data.addr
  }

  /** What changes only the blocks of qs leaves a record apart from it alone. */
  lemma StaysPut(ps: seq<Portion>, qs: seq<Portion>, before: Blocks, after: Blocks)
    requires Owned(ps, before) && (Apart(ps, qs) || Apart(qs, ps)) && OnlyThese(qs, before, after)
    ensures Owned(ps, after)
    ensures forall i | 0 <= i < |ps| && ps[i].data.Block? :: after[ps[i].data.addr] == before[ps[i].data.addr]
  {
    forall i | 0 <= i < |ps| && ps[i].data.Block?
      ensures after[ps[i].data.addr] == before[ps[i].data.addr]
    {
      assert !Holds(qs, ps[i].data.addr);
    }
  }

  /** The block of another portion is not touched. */
  lemma StoreKeeps(ps: seq<Portion>, b: Blocks, b': Blocks, i: nat, data: seq<byte>)
    requires Owned(ps, b) && i < |ps| && ps[i].data.Block? && |data| == ps[i].len
    requires b' == b[ps[i].data.addr := data]
    ensures Owned(ps, b')
    ensures forall k | 0 <= k < |ps| && k != i && ps[k].data.Block? :: b'[ps[k].data.addr] == b[ps[k].data.addr]
    ensures OnlyThese(ps, b, b')
  {
    assert Holds(ps, ps[i].data.addr);
  }

  lemma HoldsMore(ps: seq<Portion>, p: Portion)
    ensures forall a :: Holds(ps + [p], a) <==> Holds(ps, a) || p.data == Block(a)
  {
    forall a
      ensures Holds(ps + [p], a) <==> Holds(ps, a) || p.data == Block(a)
    {
      if i :| 0 <= i < |ps| && ps[i].data == Block(a) {
        assert (ps + [p])[i].data == Block(a);
      }
      if p.data == Block(a) {
        assert (ps + [p])[|ps|].data == Block(a);
      }
    }
  }

  lemma OneFreed(ps: seq<Portion>, i: nat, b0: Blocks, b: Blocks)
    requires i < |ps| && Distinct(ps) && Live(b0, ps[i].data) && Removes(ps[..i], b0, b)
    ensures Live(b, ps[i].data) && Removes(ps[..i + 1], b0, Without(b, ps[i].data))
  {
    assert ps[i].data.Block? ==> !Holds(ps[..i], ps[i].data.addr);
    HoldsMore(ps[..i], ps[i]);
    assert ps[..i + 1] == ps[..i] + [ps[i]];
  }

  /** Frees the first n portions and clears them. */
  method FreePortions(heap: Heap, fc: FuncCall, n: nat)
    requires heap.Valid() && fc.Valid() && n <= DATA_PORTIONS
    requires Distinct(fc.dataP[..n]) && forall i | 0 <= i < n :: Live(heap.blocks, fc.dataP[i].data)
    modifies heap, fc.dataP
    ensures heap.Valid() && heap.refusals == old(heap.refusals)
    ensures Removes(old(fc.dataP[..n]), old(heap.blocks), heap.blocks)
    ensures forall i | 0 <= i < n :: fc.dataP[i] == Portion(0, Null)
    ensures forall i | n <= i < DATA_PORTIONS :: fc.dataP[i] == old(fc.dataP[i])
  {
    ghost var ps := fc.dataP[..n];
    for i := 0 to n
      invariant heap.Valid() && heap.refusals == old(heap.refusals)
      invariant Removes(ps[..i], old(heap.blocks), heap.blocks)
      invariant forall k | 0 <= k < i :: fc.dataP[k] == Portion(0, Null)
      invariant forall k | i <= k < DATA_PORTIONS :: fc.dataP[k] == old(fc.dataP[k])
    {
      assert fc.dataP[i] == ps[i];
      OneFreed(ps, i, old(heap.blocks), heap.blocks);
      hide Removes, Live, Distinct, Without;
      heap.Free(fc.dataP[i].data);
      fc.dataP[i] := Portion(0, Null);
    }
    assert ps[..n] == ps;
  }

  /** Whether every allocation from portion i on succeeds, and the schedule of
      refusals after that. */
  function Grants(refusals: seq<bool>, pattern: seq<byte>, i: nat): (r: (bool, seq<bool>))
    requires i <= |pattern|
    decreases |pattern| - i
  {
    if i == |pattern| then (true, refusals)
    else if pattern[i] == 0 || refusals == [] then Grants(refusals, pattern, i + 1)
    else if refusals[0] then (false, refusals[1..])
    else Grants(refusals[1..], pattern, i + 1)
  }

  /** None of the calls a..b is refused. */
  predicate NoRefusal(refusals: seq<bool>, a: nat, b: nat) {
    forall k | a <= k < b && k < |refusals| :: !refusals[k]
  }

  /** When every portion needs a buffer, the first calls decide. */
  lemma {:induction false} GrantsAll(refusals: seq<bool>, pattern: seq<byte>, i: nat)
    requires i <= |pattern| && forall k | i <= k < |pattern| :: pattern[k] > 0
    ensures var (ok, rest) := Grants(refusals, pattern, i);
      && (ok <==> NoRefusal(refusals, 0, |pattern| - i))
      && (ok ==> rest == refusals[Min(|refusals|, |pattern| - i)..])
    decreases |pattern| - i
  {
    if i < |pattern| {
      if refusals == [] {
        GrantsAll(refusals, pattern, i + 1);
      } else if !refusals[0] {
        var more := refusals[1..];
        GrantsAll(more, pattern, i + 1);
        assert forall k | 0 <= k < |more| :: more[k] == refusals[k + 1];
        assert forall k | 1 <= k < |refusals| :: refusals[k] == more[k - 1];
      }
    }
  }

  /** Some portion is NULL although it has a length. */
  ghost predicate LacksBuffer(ps: seq<Portion>, pattern: seq<byte>)
    requires |ps| <= |pattern|
  {
    exists i: nat :: i < |ps| && ps[i] == Portion(pattern[i], Null) && pattern[i] > 0
  }

  /** From place i on ps is what it was. */
  ghost predicate SameFrom(ps: seq<Portion>, p0: seq<Portion>, i: nat) {
    |ps| == |p0| && forall k | i <= k < |ps| :: ps[k] == p0[k]
  }

  /** The first i portions are set up, and that is what was added to the heap. */
  ghost predicate SetUpTo(ps: seq<Portion>, i: nat, pattern: seq<byte>, before: Blocks, blocks: Blocks)
    requires i <= |ps| && i <= |pattern|
  {
    Zeroed(ps, i, pattern, blocks) && Distinct(ps[..i]) && Adds(ps[..i], before, blocks)
  }

  lemma OneSetUp(ps: seq<Portion>, ps': seq<Portion>, i: nat, pattern: seq<byte>, b0: Blocks, b: Blocks, b': Blocks)
    requires i < |ps| == |ps'| && i < |pattern| && SetUpTo(ps, i, pattern, b0, b) && ps'[..i] == ps[..i]
    requires ps'[i].len == pattern[i]
    requires if pattern[i] > 0
             then ps'[i].data.Block? && ps'[i].data.addr !in b && b' == b[ps'[i].data.addr := Rep(0, pattern[i])]
             else ps'[i].data.Null? && b' == b
    ensures SetUpTo(ps', i + 1, pattern, b0, b')
  {
    var q, p := ps[..i], ps'[i];
    HoldsMore(q, p);
    forall k | 0 <= k < i
      ensures ps'[k] == q[k] == ps[k] && (ps[k].data.Block? ==> Holds(q, ps[k].data.addr))
    {
      assert ps'[..i][k] == q[k];
    }
    assert ps'[..i + 1] == q + [p];
    MoreDistinct(q, p, b0, b);
    hide Distinct, Holds;
    assert Adds(q + [p], b0, b');
  }

  lemma MoreDistinct(q: seq<Portion>, p: Portion, b0: Blocks, b: Blocks)
    requires Distinct(q) && Adds(q, b0, b) && (p.data.Block? ==> p.data.addr !in b)
    ensures Distinct(q + [p])
  {
    forall k | 0 <= k < |q| && q[k].data.Block?
      ensures q[k].data.addr in b
    {
      assert Holds(q, q[k].data.addr);
    }
  }

  /** The body of initFunc's loop: one portion gets its zeroed buffer. */
  method InitPortion(heap: Heap, fc: FuncCall, i: nat, pattern: seq<byte>, ghost b0: Blocks, ghost p0: seq<Portion>)
      returns (ok: bool)
    requires heap.Valid() && fc.Valid() && i < |pattern| == DATA_PORTIONS
    requires SetUpTo(fc.dataP[..], i, pattern, b0, heap.blocks)
    modifies heap, fc.dataP
    ensures heap.Valid()
    ensures Grants(old(heap.refusals), pattern, i)
         == if ok then Grants(heap.refusals, pattern, i + 1) else (false, heap.refusals)
    ensures SameFrom(old(fc.dataP[..]), p0, i) ==> SameFrom(fc.dataP[..], p0, i + 1)
    ensures ok ==> SetUpTo(fc.dataP[..], i + 1, pattern, b0, heap.blocks)
    ensures !ok ==> SetUpTo(fc.dataP[..], i, pattern, b0, heap.blocks)
    ensures !ok ==> heap.blocks == old(heap.blocks) && fc.dataP[i] == Portion(pattern[i], Null) && pattern[i] > 0
  {
    ghost var ps, b := fc.dataP[..], heap.blocks;
    if pattern[i] > 0 {
      var p := heap.Malloc(pattern[i]);
      fc.dataP[i] := Portion(pattern[i], p);
      if p.Null? {
        assert fc.dataP[..][..i] == ps[..i];
        return false;
      }
      heap.Store(p, Rep(0, pattern[i]));
      assert heap.blocks[p.addr] == Rep(0, pattern[i]);
      assert heap.blocks == b[p.addr := Rep(0, pattern[i])];
    } else {
      fc.dataP[i] := Portion(pattern[i], Null);
    }
    assert fc.dataP[..][..i] == ps[..i];
    hide SetUpTo;
    OneSetUp(ps, fc.dataP[..], i, pattern, b0, b, heap.blocks);
    return true;
  }

  /** initFunc. */
  method InitFunc(heap: Heap, fc: FuncCall, funcId: uint32, pattern: seq<byte>) returns (ret: int)
    requires heap.Valid() && fc.Valid() && |pattern| == DATA_PORTIONS
    modifies heap, fc, fc.dataP
    ensures heap.Valid() && fc.func == funcId
    ensures ret == 0 || ret == 1
    ensures (ret == 0, heap.refusals) == Grants(old(heap.refusals), pattern, 0)
    ensures ret == 0 ==>
              && Zeroed(fc.dataP[..], DATA_PORTIONS, pattern, heap.blocks)
              && Distinct(fc.dataP[..])
              && Adds(fc.dataP[..], old(heap.blocks), heap.blocks)
    ensures ret == 1 ==> heap.blocks == old(heap.blocks) && LacksBuffer(fc.dataP[..], pattern)
    ensures ret == 1 && AllNull(old(fc.dataP[..])) ==> AllNull(fc.dataP[..])
  {
    fc.func := funcId;
    ghost var b0, rf, p0 := heap.blocks, heap.refusals, fc.dataP[..];
    NothingSetUp(fc.dataP[..], pattern, b0);
    assert SameFrom(p0, p0, 0);
    hide SetUpTo, Grants, LacksBuffer, Zeroed, Distinct, Adds, SameFrom, AllNull;
    for i := 0 to DATA_PORTIONS
      invariant heap.Valid() && fc.func == funcId
      invariant Grants(rf, pattern, 0) == Grants(heap.refusals, pattern, i)
      invariant SetUpTo(fc.dataP[..], i, pattern, b0, heap.blocks)
      invariant SameFrom(fc.dataP[..], p0, i)
    {
      var ok := InitPortion(heap, fc, i, pattern, b0, p0);
      if !ok {
        Undo(heap, fc, i, pattern, b0, p0);
        return 1;
      }
    }
    AllSetUp(fc.dataP[..], pattern, b0, heap.blocks, heap.refusals);
    return 0;
  }

  lemma AllSetUp(ps: seq<Portion>, pattern: seq<byte>, b0: Blocks, b: Blocks, refusals: seq<bool>)
    requires |ps| == |pattern| && SetUpTo(ps, |ps|, pattern, b0, b)
    ensures Zeroed(ps, |ps|, pattern, b) && Distinct(ps) && Adds(ps, b0, b)
    ensures Grants(refusals, pattern, |pattern|) == (true, refusals)
  {
    assert ps[..|ps|] == ps;
  }

  lemma NothingSetUp(ps: seq<Portion>, pattern: seq<byte>, b0: Blocks)
    ensures SetUpTo(ps, 0, pattern, b0, b0)
  {
    assert ps[..0] == [];
  }

  /** What initFunc does when portion i gets no buffer. */
  method Undo(heap: Heap, fc: FuncCall, i: nat, pattern: seq<byte>, ghost b0: Blocks, ghost p0: seq<Portion>)
    requires heap.Valid() && fc.Valid() && i < |pattern| == DATA_PORTIONS
    requires SetUpTo(fc.dataP[..], i, pattern, b0, heap.blocks)
    requires fc.dataP[i] == Portion(pattern[i], Null) && pattern[i] > 0 && SameFrom(fc.dataP[..], p0, i + 1)
    modifies heap, fc.dataP
    ensures heap.Valid() && heap.refusals == old(heap.refusals) && heap.blocks == b0
    ensures LacksBuffer(fc.dataP[..], pattern)
    ensures AllNull(p0) ==> AllNull(fc.dataP[..])
  {
    ghost var ps, b := fc.dataP[..i], heap.blocks;
    assert ps == fc.dataP[..][..i];
    FreePortions(heap, fc, i);
    AddThenRemove(ps, b0, b, heap.blocks);
    assert fc.dataP[..][i] == Portion(pattern[i], Null);
  }

  /** freeFunc. */
  method FreeFunc(heap: Heap, fc: FuncCall)
    requires heap.Valid() && fc.Valid()
    requires Distinct(fc.dataP[..]) && forall i | 0 <= i < DATA_PORTIONS :: Live(heap.blocks, fc.dataP[i].data)
    modifies heap, fc.dataP
    ensures heap.Valid() && heap.refusals == old(heap.refusals)
    ensures Removes(old(fc.dataP[..]), old(heap.blocks), heap.blocks)
    ensures forall i | 0 <= i < DATA_PORTIONS :: fc.dataP[i] == Portion(0, Null)
  {
    assert fc.dataP[..] == fc.dataP[..DATA_PORTIONS];
    FreePortions(heap, fc, DATA_PORTIONS);
  }
}
