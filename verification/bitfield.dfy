/** The bitfield message: which pieces a peer has, one bit a piece, after a one-byte message id. */
module Bitfield {

  /** Bit k of a byte, counted from the most significant. */
  predicate BitOf(b: bv8, k: nat)
    requires k < 8
  {
    ((b >> (7 - k)) & 1) != 0
  }

  function WithBit(b: bv8, k: nat): bv8
    requires k < 8
  {
    b | (1 << (7 - k))
  }

  /** data starts with the message id, so the payload is one byte shorter. */
  predicate HasPiece(data: seq<bv8>, index: nat) {
    |data| > 0 && index / 8 < |data| - 1 && BitOf(data[index / 8 + 1], index % 8)
  }

  predicate InRange(data: seq<bv8>, index: nat) {
    |data| > 0 && index / 8 < |data| - 1
  }

  function SetPiece(data: seq<bv8>, index: nat): seq<bv8> {
    if InRange(data, index) then data[index / 8 + 1 := WithBit(data[index / 8 + 1], index % 8)] else data
  }

  class MessageBitfield {
    const data: array<bv8>

    constructor (payload: seq<bv8>)
      ensures data[..] == payload && fresh(data)
    {
      data := new bv8[|payload|](i requires 0 <= i < |payload| => payload[i]);
    }

    method HasPieceAt(index: nat) returns (has: bool)
      ensures has == HasPiece(data[..], index)
    {
      if data.Length == 0 {
        return false;
      }
      var byteIndex, offset, count := index / 8, index % 8, data.Length - 1;
      if byteIndex >= count {
        return false;
      }
      var mask := data[byteIndex + 1];
      return ((mask >> (7 - offset)) & 1) != 0;
    }

    /** The payload holds at least the message id. */
    method SetPieceAt(index: nat) returns (set_: bool)
      requires data.Length > 0
      modifies data
      ensures data[..] == SetPiece(old(data[..]), index)
      ensures set_ <==> InRange(old(data[..]), index)
    {
      var byteIndex, offset, count := index / 8, index % 8, data.Length - 1;
      if byteIndex >= count {
        return false;
      }
      data[byteIndex + 1] := data[byteIndex + 1] | (1 << (7 - offset));
      return true;
    }
  }

  /** The mask of each bit of a byte, the first bit being the most significant. */
  const MASKS: seq<bv8> := [0x80, 0x40, 0x20, 0x10, 0x08, 0x04, 0x02, 0x01]

  lemma MaskOf(b: bv8, k: nat)
    requires k < 8
    ensures BitOf(b, k) <==> b & MASKS[k] != 0
  {
    if k == 0 {} else if k == 1 {} else if k == 2 {} else if k == 3 {}
    else if k == 4 {} else if k == 5 {} else if k == 6 {} else {}
    hide WithBit;
  }

  lemma OneShifted(k: nat)
    requires k < 8
    ensures (1 as bv8) << (7 - k) == MASKS[k]
  {
    if k == 0 {} else if k == 1 {} else if k == 2 {} else if k == 3 {}
    else if k == 4 {} else if k == 5 {} else if k == 6 {} else {}
  }

  lemma BitMasks(b: bv8, k: nat)
    requires k < 8
    ensures BitOf(b, k) <==> b & MASKS[k] != 0
    ensures WithBit(b, k) == b | MASKS[k]
  {
    MaskOf(b, k);
    OneShifted(k);
    hide BitOf;
  }

  /** Where the bit of a piece is: the high bit of the first byte after the message id is piece 0. */
  lemma HasPieceMeans(data: seq<bv8>, index: nat)
    ensures HasPiece(data, index) <==> index / 8 + 1 < |data| && data[index / 8 + 1] & MASKS[index % 8] != 0
  {
    if index / 8 + 1 < |data| {
      BitMasks(data[index / 8 + 1], index % 8);
    }
    hide BitOf;
  }

  /** Setting a bit sets that bit and leaves the others alone. */
  lemma BitAfterSet(b: bv8, k: nat, j: nat)
    requires k < 8 && j < 8
    ensures BitOf(WithBit(b, k), j) <==> j == k || BitOf(b, j)
  {
  }

  /** The bitfield after a run of Have messages. */
  function AfterHaves(data: seq<bv8>, haves: seq<nat>): seq<bv8> {
    if haves == [] then data else SetPiece(AfterHaves(data, haves[..|haves| - 1]), haves[|haves| - 1])
  }

  lemma HasAfterSet(data: seq<bv8>, index: nat, i: nat)
    ensures HasPiece(SetPiece(data, index), i) <==> HasPiece(data, i) || (i == index && InRange(data, i))
  {
    if InRange(data, index) && index / 8 == i / 8 {
      BitAfterSet(data[index / 8 + 1], index % 8, i % 8);
    }
    hide BitOf, WithBit;
  }

  /** After any run of Have messages the peer has exactly the pieces it had and the in-range ones it
      announced; the message id and the length never change. */
  lemma {:induction false} HasAfterHaves(data: seq<bv8>, haves: seq<nat>, i: nat)
    ensures HasPiece(AfterHaves(data, haves), i) <==> HasPiece(data, i) || (i in haves && InRange(data, i))
    ensures |AfterHaves(data, haves)| == |data|
    ensures |data| > 0 ==> AfterHaves(data, haves)[0] == data[0]
    decreases |haves|
  {
    if haves != [] {
      var n := |haves| - 1;
      HasAfterHaves(data, haves[..n], i);
      HasAfterSet(AfterHaves(data, haves[..n]), haves[n], i);
      assert haves == haves[..n] + [haves[n]];
      hide HasPiece;
    }
  }

  /** Every payload bit, not only those of existing pieces. */
  lemma PayloadBitsAfterHaves(data: seq<bv8>, haves: seq<nat>, b: nat, k: nat)
    requires 0 < b < |data| && k < 8
    ensures |AfterHaves(data, haves)| == |data|
    ensures BitOf(AfterHaves(data, haves)[b], k) <==> BitOf(data[b], k) || ((b - 1) * 8 + k) in haves
  {
    var i := (b - 1) * 8 + k;
    assert i / 8 == b - 1 && i % 8 == k;
    HasAfterHaves(data, haves, i);
    hide BitOf, AfterHaves;
  }
}
