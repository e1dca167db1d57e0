/** The acknowledgement bit map as bytes: bit `k` of the map is bit k % 8 of byte 4 + k / 8. */
module AckBits {
  import opened Sequences
  import opened Packets

  predicate TestBit(b: bv8, k: nat)
    requires k < 8
  {
    b & ((1 as bv8) << k) != 0
  }

  predicate MapBit(raw: seq<bv8>, k: nat)
    requires |raw| == ACK_SIZE && k < WINDOW
  {
    TestBit(raw[HEADER_SIZE + k / 8], k % 8)
  }

  ghost predicate Shows(raw: seq<bv8>, bits: seq<bool>) {
    |raw| == ACK_SIZE && |bits| == WINDOW && forall k :: 0 <= k < WINDOW ==> bits[k] == MapBit(raw, k)
  }

  function BitsOf(raw: seq<bv8>): (bits: seq<bool>)
    requires |raw| == ACK_SIZE
    ensures Shows(raw, bits)
  {
    seq(WINDOW, k requires 0 <= k < WINDOW => MapBit(raw, k))
  }

  /** A literal shift amount lets the solver compute. */
  lemma {:induction false} PowerOfTwo(k: nat)
    requires k < 8
    ensures (1 as bv8) << k == [0x01, 0x02, 0x04, 0x08, 0x10, 0x20, 0x40, 0x80][k]
  {
  }

  function WithBit(b: bv8, k: nat): bv8
    requires k < 8
  {
    b | ((1 as bv8) << k)
  }

  function WithoutBit(b: bv8, k: nat): bv8
    requires k < 8
  {
    b & !((1 as bv8) << k)
  }

  /** A byte changed in one bit changes the map in one place. */
  lemma {:induction false} PutByte(raw: seq<bv8>, bits: seq<bool>, k: nat, value: bv8, b: bool)
    requires Shows(raw, bits) && k < WINDOW
    requires forall i: nat :: i < 8 ==> TestBit(value, i) == if i == k % 8 then b else TestBit(raw[HEADER_SIZE + k / 8], i)
    ensures |raw| == ACK_SIZE && |bits| == WINDOW && Shows(raw[HEADER_SIZE + k / 8 := value], bits[k := b])
  {
  }

  lemma {:induction false} SetBits(b: bv8, k: nat)
    requires k < 8
    ensures forall i: nat :: i < 8 ==> TestBit(WithBit(b, k), i) == (if i == k then true else TestBit(b, i))
  {
  }

  lemma {:induction false} ClearBits(b: bv8, k: nat)
    requires k < 8
    ensures forall i: nat :: i < 8 ==> TestBit(WithoutBit(b, k), i) == (if i == k then false else TestBit(b, i))
  {
  }

  lemma {:induction false} SetShows(raw: seq<bv8>, bits: seq<bool>, k: nat)
    requires Shows(raw, bits) && k < WINDOW
    ensures |raw| == ACK_SIZE && |bits| == WINDOW
    ensures var at := HEADER_SIZE + k / 8; Shows(raw[at := WithBit(raw[at], k % 8)], bits[k := true])
  {
    hide TestBit, WithBit;
    SetBits(raw[HEADER_SIZE + k / 8], k % 8);
    PutByte(raw, bits, k, WithBit(raw[HEADER_SIZE + k / 8], k % 8), true);
  }

  lemma {:induction false} ClearShows(raw: seq<bv8>, bits: seq<bool>, k: nat)
    requires Shows(raw, bits) && k < WINDOW
    ensures |raw| == ACK_SIZE && |bits| == WINDOW
    ensures var at := HEADER_SIZE + k / 8; Shows(raw[at := WithoutBit(raw[at], k % 8)], bits[k := false])
  {
    hide TestBit, WithoutBit;
    ClearBits(raw[HEADER_SIZE + k / 8], k % 8);
    PutByte(raw, bits, k, WithoutBit(raw[HEADER_SIZE + k / 8], k % 8), false);
  }

  /** The RawData of _outgoingAcks with the bits it shows. */
  class AckMap {
    const raw: array<bv8>
    ghost var bits: seq<bool>

    ghost predicate Valid()
      reads this, raw
    {
      raw.Length == ACK_SIZE && Shows(raw[..], bits)
    }

    constructor ()
      ensures Valid() && fresh(raw) && bits == seq(WINDOW, k => false)
    {
      raw := new bv8[ACK_SIZE](i => 0);
      bits := seq(WINDOW, k => false);
      new;
      forall k | 0 <= k < WINDOW
        ensures !MapBit(raw[..], k)
      {
        PowerOfTwo(k % 8);
      }
    }

    method Render() returns (copy: seq<bool>)
      requires Valid()
      ensures copy == bits
    {
      copy := BitsOf(raw[..]);
    }

    method Test(k: nat) returns (b: bool)
      requires Valid() && k < WINDOW
      ensures b == bits[k]
    {
      b := raw[HEADER_SIZE + k / 8] & ((1 as bv8) << (k % 8)) != 0;
      assert b == MapBit(raw[..], k);
    }

    method Set(k: nat)
      requires Valid() && k < WINDOW
      modifies this, raw
      ensures Valid() && bits == old(bits)[k := true]
    {
      hide Shows;
      ghost var before := raw[..];
      var at := HEADER_SIZE + k / 8;
      raw[at] := raw[at] | ((1 as bv8) << (k % 8));
      SetShows(before, bits, k);
      assert raw[..] == before[at := raw[at]];
      bits := bits[k := true];
    }

    method Clear(k: nat)
      requires Valid() && k < WINDOW
      modifies this, raw
      ensures Valid() && bits == old(bits)[k := false]
    {
      hide Shows;
      ghost var before := raw[..];
      var at := HEADER_SIZE + k / 8;
      raw[at] := raw[at] & !((1 as bv8) << (k % 8));
      ClearShows(before, bits, k);
      assert raw[..] == before[at := raw[at]];
      bits := bits[k := false];
    }
  }

}
