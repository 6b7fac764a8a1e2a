/** The C heap, as far as malloc, free, memset and memcpy of whole blocks go. */
module Memory {
  import opened Bytes

  datatype Ptr = Null | Block(addr: nat)

  /** A buffer pointer and the length that goes with it. */
  datatype Portion = Portion(len: byte, data: Ptr)

  type Blocks = map<nat, seq<byte>>

  predicate Live(blocks: Blocks, p: Ptr) {
    p.Block? ==> p.addr in blocks
  }

  /** blocks without the block of p, if it has one. */
  function Without(blocks: Blocks, p: Ptr): (b: Blocks)
    ensures forall a :: a in b <==> a in blocks && p != Block(a)
    ensures forall a :: a in b ==> b[a] == blocks[a]
  {
    map a | a in blocks && p != Block(a) :: blocks[a]
  }

  class Heap {
    var blocks: Blocks
    var next: nat
    var refusals: seq<bool>

    ghost predicate Valid()
      reads this
    {
      forall a <- blocks :: a < next
    }

    constructor (refusals: seq<bool>)
      ensures Valid() && blocks == map[] && this.refusals == refusals
    {
      blocks, next, this.refusals := map[], 0, refusals;
    }

    /** The schedule says which calls fail; past its end all succeed. */
    method Malloc(n: nat) returns (p: Ptr)
      requires Valid()
      modifies this
      ensures Valid()
      ensures p.Null? <==> old(refusals) != [] && old(refusals)[0]
      ensures refusals == if old(refusals) == [] then [] else old(refusals)[1..]
      ensures p.Null? ==> blocks == old(blocks)
      ensures p.Block? ==>
                && p.addr !in old(blocks) && p.addr in blocks && |blocks[p.addr]| == n
                && blocks == old(blocks)[p.addr := blocks[p.addr]]
    {
      var refused := refusals != [] && refusals[0];
      refusals := if refusals == [] then [] else refusals[1..];
      if refused {
        return Null;
      }
      var junk: seq<byte> := Rep(0xA5, n);
      p, blocks, next := Block(next), blocks[next := junk], next + 1;
    }

    /** Freeing anything but NULL or a live block is an error of the caller. */
    method Free(p: Ptr)
      requires Valid() && Live(blocks, p)
      modifies this
      ensures Valid() && blocks == Without(old(blocks), p) && refusals == old(refusals)
    {
      blocks := Without(blocks, p);
    }

    /** memcpy or memset of the first |data| bytes of a block. */
    method Store(p: Ptr, data: seq<byte>)
      requires Valid() && p.Block? && p.addr in blocks && |data| <= |blocks[p.addr]|
      modifies this
      ensures Valid() && refusals == old(refusals)
      ensures blocks == old(blocks)[p.addr := data + old(blocks)[p.addr][|data|..]]
    {
      blocks := blocks[p.addr := data + blocks[p.addr][|data|..]];
    }
  }
}
