/** How the input is cut into reads does not matter: two connections that
    deliver the same bytes before the same end cannot be told apart. */
module Fragmentation {
  import opened Bytes
  import opened Channel
  import opened Transmission

  /** The connection does not end within these events. */
  predicate Unended(evs: seq<ReadEvent>) {
    forall i | 0 <= i < |evs| :: evs[i].Chunk? || evs[i].WantRead?
  }

  predicate Ends(ev: ReadEvent) {
    ev.PeerClosed? || ev.ReadFatal?
  }

  /** The bytes that the events deliver. */
  function Data(evs: seq<ReadEvent>): seq<byte>
    requires Unended(evs)
  {
    if evs == [] then [] else (if evs[0].Chunk? then evs[0].data else []) + Data(evs[1..])
  }

  lemma {:induction false} TokensOfData(evs: seq<ReadEvent>)
    requires Unended(evs)
    ensures Tokens(evs) == Toks(Data(evs))
  {
    if evs != [] {
      TokensOfData(evs[1..]);
      ToksAppend(if evs[0].Chunk? then evs[0].data else [], Data(evs[1..]));
    }
  }

  /** Two schedules with the same bytes up to the same kind of stop are the same
      input, however the bytes are cut and wherever retries are asked for. */
  lemma SameDelivery(a: seq<ReadEvent>, b: seq<ReadEvent>, e: ReadEvent, e': ReadEvent, more: seq<ReadEvent>)
    requires Unended(a) && Unended(b) && Data(a) == Data(b) && Ends(e) && Ends(e')
    ensures Tokens(a) == Tokens(b)
    ensures Tokens(a + ([e] + more)) == Tokens(b + ([e'] + more))
  {
    TokensOfData(a);
    TokensOfData(b);
    TokensAppend(a, [e] + more);
    TokensAppend(b, [e'] + more);
    TokensCons(e, more);
    TokensCons(e', more);
  }

  /** The same input, read up to the same place. */
  ghost predicate Alike(c1: Channel, c2: Channel)
    reads c1, c2
  {
    c1 != c2 && c1.Valid() && c2.Valid() && c1.all == c2.all && c1.pos == c2.pos
  }

  method ReadExactTwice(c1: Channel, c2: Channel, b1: array<byte>, b2: array<byte>, len: nat) returns (r1: int, r2: int)
    requires Alike(c1, c2) && b1 != b2 && len <= b1.Length && b1[..] == b2[..]
    modifies c1, c2, b1, b2
    ensures Alike(c1, c2) && r1 == r2 && b1[..] == b2[..]
  {
    ghost var d1, d2;
    r1, d1 := ReadExact(c1, b1, len);
    r2, d2 := ReadExact(c2, b2, len);
    FindsUnique(c1.all, old(c1.pos), len, d1, d2);
    forall k | 0 <= k < b1.Length
      ensures b1[..][k] == b2[..][k]
    {
      if k < |d1| {
        assert b1[..|d1|][k] == b2[..|d1|][k];
      } else {
        assert old(b1[..][k]) == old(b2[..][k]);
      }
    }
  }

  method WaitForAckTwice(c1: Channel, c2: Channel) returns (r1: int, r2: int)
    requires Alike(c1, c2)
    modifies c1, c2
    ensures Alike(c1, c2) && r1 == r2
  {
    ghost var d1, d2;
    r1, d1 := WaitForAck(c1);
    r2, d2 := WaitForAck(c2);
    FindsUnique(c1.all, old(c1.pos), 3, d1, d2);
  }

  method RecStreamTwice(c1: Channel, c2: Channel, b1: array<byte>, b2: array<byte>, len: byte)
      returns (r1: int, r2: int)
    requires Alike(c1, c2) && b1 != b2 && len <= b1.Length && b1[..] == b2[..]
    modifies c1, c2, b1, b2
    ensures Alike(c1, c2) && r1 == r2 && b1[..] == b2[..]
  {
    r1 := RecStream(c1, b1, len);
    r2 := RecStream(c2, b2, len);
  }
}
