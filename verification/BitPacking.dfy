/**
 * Packing numbers of any width into bytes, least significant bit first, as the avatar sender
 * does for bone rotations.
 */
module BitPacking {
  import opened Packets
  import opened Bits

  const BONES := 9
  const BONE_BITS := 38
  const FIRST_BONE_BIT := 9 * 8

  /** The bits with a field of them replaced. */
  function Spliced(bits: seq<bool>, offset: nat, field: seq<bool>): (r: seq<bool>)
    requires offset + |field| <= |bits|
    ensures |r| == |bits|
  {
    bits[..offset] + field + bits[offset + |field|..]
  }

  /** Field first, neighbours untouched: what splicing means bit by bit. */
  lemma {:induction false} SplicedReads(bits: seq<bool>, offset: nat, field: seq<bool>)
    requires offset + |field| <= |bits|
    ensures Spliced(bits, offset, field)[offset..offset + |field|] == field
    ensures forall k :: 0 <= k < |bits| && !(offset <= k < offset + |field|) ==> Spliced(bits, offset, field)[k] == bits[k]
  {
  }

  lemma {:induction false} SplicedTwice(bits: seq<bool>, offset: nat, f: seq<bool>, g: seq<bool>)
    requires offset + |f| + |g| <= |bits|
    ensures Spliced(Spliced(bits, offset, f), offset + |f|, g) == Spliced(bits, offset, f + g)
  {
  }

  // ---- Operators on the eight bits of a byte ----

  function And(x: seq<bool>, y: seq<bool>): (r: seq<bool>)
    requires |x| == |y| == 8
    ensures |r| == 8
  {
    seq(8, i requires 0 <= i < 8 => x[i] && y[i])
  }

  function Or(x: seq<bool>, y: seq<bool>): (r: seq<bool>)
    requires |x| == |y| == 8
    ensures |r| == 8
  {
    seq(8, i requires 0 <= i < 8 => x[i] || y[i])
  }

  function Not(x: seq<bool>): (r: seq<bool>)
    requires |x| == 8
    ensures |r| == 8
  {
    seq(8, i requires 0 <= i < 8 => !x[i])
  }

  function ShiftLeft(x: seq<bool>, n: nat): (r: seq<bool>)
    requires |x| == 8
    ensures |r| == 8
  {
    seq(8, i requires 0 <= i < 8 => i >= n && x[i - n])
  }

  /** One less than two to the `count`, as a byte. */
  function Mask(count: nat): (r: seq<bool>)
    ensures |r| == 8
  {
    seq(8, i => i < count)
  }

  /** Clear the field under the mask and fill it from the value. */
  function Merged(b: seq<bool>, value: seq<bool>, shift: nat, count: nat): (r: seq<bool>)
    requires |b| == |value| == 8
    ensures |r| == 8
  {
    Or(And(b, Not(ShiftLeft(Mask(count), shift))), ShiftLeft(And(value, Mask(count)), shift))
  }

  lemma {:induction false} MergedIsSpliced(b: seq<bool>, value: seq<bool>, shift: nat, count: nat)
    requires |b| == |value| == 8 && shift + count <= 8
    ensures Merged(b, value, shift, count) == Spliced(b, shift, value[..count])
  {
  }

  function Merge(b: byte, value: nat, shift: nat, count: nat): byte {
    var bits := Merged(ToBits(b, 8), ToBits(value, 8), shift, count);
    Pow8();
    FromBits(bits)
  }

  lemma {:induction false} MergeBits(b: byte, value: nat, shift: nat, count: nat)
    requires shift + count <= 8
    ensures ToBits(Merge(b, value, shift, count), 8) == Spliced(ToBits(b, 8), shift, ToBits(value, count))
  {
    hide ToBits, Merged, FromBits;
    ToFrom(Merged(ToBits(b, 8), ToBits(value, 8), shift, count));
    MergedIsSpliced(ToBits(b, 8), ToBits(value, 8), shift, count);
    CutBits(value, count, 8 - count);
    assert count + (8 - count) == 8;
    assert ToBits(value, 8)[..count] == ToBits(value, count);
  }

  lemma {:induction false} ByteAt(bytes: seq<byte>, i: nat, x: byte)
    requires i < |bytes|
    ensures OfBytes(bytes)[8 * i..8 * i + 8] == ToBits(bytes[i], 8)
    ensures OfBytes(bytes[i := x]) == Spliced(OfBytes(bytes), 8 * i, ToBits(x, 8))
    decreases |bytes|
  {
    hide ToBits;
    var y := bytes[i := x];
    if i == 0 {
      assert y[1..] == bytes[1..];
    } else {
      assert y[1..] == bytes[1..][i - 1 := x];
      ByteAt(bytes[1..], i - 1, x);
      AfterFirst(OfBytes(bytes), ToBits(bytes[0], 8), OfBytes(bytes[1..]), 8 * (i - 1), ToBits(x, 8));
    }
  }

  lemma {:induction false} AfterFirst(all: seq<bool>, first: seq<bool>, rest: seq<bool>, at: nat, field: seq<bool>)
    requires all == first + rest && |first| == 8 && at + 8 <= |rest| && |field| == 8
    ensures all[at + 8..at + 16] == rest[at..at + 8]
    ensures first + Spliced(rest, at, field) == Spliced(all, at + 8, field)
  {
  }

  /** One byte of the loop is one splice of the bits. */
  lemma {:induction false} MergeOneByte(bytes: seq<byte>, i: nat, value: nat, shift: nat, count: nat)
    requires i < |bytes| && shift + count <= 8
    ensures OfBytes(bytes[i := Merge(bytes[i], value, shift, count)]) == Spliced(OfBytes(bytes), 8 * i + shift, ToBits(value, count))
  {
    hide *;
    MergeBits(bytes[i], value, shift, count);
    ByteAt(bytes, i, Merge(bytes[i], value, shift, count));
    var field := ToBits(value, count);
    SplicedInside(OfBytes(bytes), 8 * i, 8, shift, field);
  }

  lemma {:induction false} SplicedInside(bits: seq<bool>, at: nat, size: nat, shift: nat, field: seq<bool>)
    requires at + size <= |bits| && shift + |field| <= size
    ensures Spliced(bits, at, Spliced(bits[at..at + size], shift, field)) == Spliced(bits, at + shift, field)
  {
  }

  /** All but `remaining` bits are in place, and those are the low bits of `rest`. */
  ghost predicate Halfway(before: seq<bool>, now: seq<bool>, offset: nat, value: nat, count: nat, rest: nat, remaining: nat) {
    && remaining <= count && offset + count <= |before|
    && var all, done := ToBits(value, count), count - remaining;
    && now == Spliced(before, offset, all[..done])
    && all[done..] == ToBits(rest, remaining)
  }

  lemma {:induction false} NotStarted(before: seq<bool>, offset: nat, value: nat, count: nat)
    requires offset + count <= |before|
    ensures Halfway(before, before, offset, value, count, value, count)
  {
  }

  lemma {:induction false} Finished(before: seq<bool>, now: seq<bool>, offset: nat, value: nat, count: nat, rest: nat)
    requires Halfway(before, now, offset, value, count, rest, 0)
    ensures offset + count <= |before| && now == Spliced(before, offset, ToBits(value, count))
  {
  }

  lemma {:induction false} OneByte(before: seq<bool>, bytes: seq<byte>, offset: nat, value: nat, count: nat, rest: nat, remaining: nat,
                                  index: nat, shift: nat, n: nat)
    requires Halfway(before, OfBytes(bytes), offset, value, count, rest, remaining)
    requires index < |bytes| && 8 * index + shift == offset + count - remaining && n <= remaining && shift + n <= 8
    ensures Halfway(before, OfBytes(bytes[index := Merge(bytes[index], rest, shift, n)]), offset, value, count, ShiftRight(rest, n), remaining - n)
  {
    hide OfBytes, ToBits, Merge, Pow2, Spliced;
    MergeOneByte(bytes, index, rest, shift, n);
    CutBits(rest, n, remaining - n);
    var all, done := ToBits(value, count), count - remaining;
    Regroup(all, done, ToBits(rest, n), ToBits(ShiftRight(rest, n), remaining - n));
    SplicedTwice(before, offset, all[..done], ToBits(rest, n));
  }

  lemma {:induction false} Regroup(all: seq<bool>, done: nat, x: seq<bool>, y: seq<bool>)
    requires done <= |all| && all[done..] == x + y
    ensures done + |x| <= |all| && all[..done] + x == all[..done + |x|] && all[done + |x|..] == y
  {
  }

  /** `write_packed_bits_lsb`: the field holds the low bits of the value, all else is unchanged. */
  method WritePackedBits(a: array<byte>, offset: nat, value: nat, count: nat)
    requires offset + count <= 8 * a.Length
    modifies a
    ensures OfBytes(a[..]) == Spliced(OfBytes(old(a[..])), offset, ToBits(value, count))
  {
    hide *;
    var index, shift, remaining, rest := offset / 8, offset % 8, count, value;
    ghost var before := OfBytes(a[..]);
    NotStarted(before, offset, value, count);
    while remaining != 0
      invariant 0 <= remaining <= count && 0 <= shift < 8 && rest >= 0
      invariant remaining > 0 ==> 8 * index + shift == offset + count - remaining
      invariant Halfway(before, OfBytes(a[..]), offset, value, count, rest, remaining)
    {
      var n := if remaining < 8 - shift then remaining else 8 - shift;
      ghost var bytes := a[..];
      OneByte(before, bytes, offset, value, count, rest, remaining, index, shift, n);
      a[index] := Merge(a[index], rest, shift, n);
      assert a[..] == bytes[index := a[index]];
      rest := ShiftRight(rest, n);
      remaining := remaining - n;
      index := index + 1;
      shift := 0;
    }
    Finished(before, OfBytes(a[..]), offset, value, count, rest);
  }

  /** The number read back from a field, least significant bit first. */
  function Field(bits: seq<bool>, offset: nat, count: nat): nat
    requires offset + count <= |bits|
  {
    FromBits(bits[offset..offset + count])
  }

  /** The first `slots` rotations are in place and nothing outside them has changed. */
  ghost predicate BonesWritten(before: seq<bool>, after: seq<bool>, values: seq<nat>, slots: nat)
    requires |before| == |after| && FIRST_BONE_BIT + slots * BONE_BITS <= |after| && slots <= |values|
  {
    && (forall s :: 0 <= s < slots ==> Field(after, FIRST_BONE_BIT + s * BONE_BITS, BONE_BITS) == values[s] % Pow2(BONE_BITS))
    && (forall k :: 0 <= k < |before| && !(FIRST_BONE_BIT <= k < FIRST_BONE_BIT + slots * BONE_BITS) ==> after[k] == before[k])
  }

  /** Nine rotations side by side: each is read back as it was written, and nothing else changed. */
  method WriteBones(a: array<byte>, values: seq<nat>)
    requires |values| == BONES && FIRST_BONE_BIT + BONES * BONE_BITS <= 8 * a.Length
    modifies a
    ensures BonesWritten(OfBytes(old(a[..])), OfBytes(a[..]), values, BONES)
  {
    hide OfBytes, ToBits, BonesWritten, Spliced, Pow2;
    ghost var before := OfBytes(a[..]);
    NoneWritten(before, values);
    for slot := 0 to BONES
      invariant BonesWritten(before, OfBytes(a[..]), values, slot)
    {
      ghost var bits := OfBytes(a[..]);
      WritePackedBits(a, FIRST_BONE_BIT + slot * BONE_BITS, values[slot], BONE_BITS);
      OneMoreBone(before, bits, values, slot);
    }
  }

  lemma {:induction false} NoneWritten(bits: seq<bool>, values: seq<nat>)
    requires FIRST_BONE_BIT <= |bits|
    ensures BonesWritten(bits, bits, values, 0)
  {
  }

  lemma {:induction false} OneMoreBone(before: seq<bool>, bits: seq<bool>, values: seq<nat>, slot: nat)
    requires |before| == |bits| && FIRST_BONE_BIT + (slot + 1) * BONE_BITS <= |bits| && slot < |values|
    requires BonesWritten(before, bits, values, slot)
    ensures BonesWritten(before, Spliced(bits, FIRST_BONE_BIT + slot * BONE_BITS, ToBits(values[slot], BONE_BITS)), values, slot + 1)
  {
    hide ToBits, Pow2, Field, Spliced;
    var offset := FIRST_BONE_BIT + slot * BONE_BITS;
    WroteOne(bits, offset, values[slot]);
    var after := Spliced(bits, offset, ToBits(values[slot], BONE_BITS));
    forall s | 0 <= s < slot
      ensures Field(after, FIRST_BONE_BIT + s * BONE_BITS, BONE_BITS) == Field(bits, FIRST_BONE_BIT + s * BONE_BITS, BONE_BITS)
    {
      WroteAside(bits, offset, values[slot], FIRST_BONE_BIT + s * BONE_BITS);
    }
  }

  lemma {:induction false} WroteOne(bits: seq<bool>, offset: nat, value: nat)
    requires offset + BONE_BITS <= |bits|
    ensures var after := Spliced(bits, offset, ToBits(value, BONE_BITS));
            && Field(after, offset, BONE_BITS) == value % Pow2(BONE_BITS)
            && (forall k :: 0 <= k < |bits| && !(offset <= k < offset + BONE_BITS) ==> after[k] == bits[k])
  {
    hide ToBits, Pow2, FromBits;
    LowBits(value, BONE_BITS);
    SplicedReads(bits, offset, ToBits(value, BONE_BITS));
  }

  /** Writing one field keeps the fields before it. */
  lemma {:induction false} WroteAside(bits: seq<bool>, offset: nat, value: nat, at: nat)
    requires offset + BONE_BITS <= |bits| && at + BONE_BITS <= offset
    ensures Field(Spliced(bits, offset, ToBits(value, BONE_BITS)), at, BONE_BITS) == Field(bits, at, BONE_BITS)
  {
    hide ToBits, FromBits;
    var after := Spliced(bits, offset, ToBits(value, BONE_BITS));
    assert after[at..at + BONE_BITS] == bits[at..at + BONE_BITS];
  }
}
