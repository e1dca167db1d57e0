/**
 * Where the channels of an avatar payload lie at each quality, and that together they leave no
 * bit out.
 */
module AvatarLayout {
  import opened DeltaCodec

  const HIGH := 3
  const BONE_SLOTS := 21
  const ROTATION_FIELDS := 31
  const FIELDS := 37
  const POSITION_BITS := 72
  /** Qualities from very low to high. */
  type Quality = q: nat | q <= HIGH

  function PayloadBytes(q: Quality): nat { [74, 83, 97, 159][q] }

  function RotationBytes(q: Quality): nat { [44, 53, 67, 94][q] }

  /** Bits per component of the bones with three degrees of freedom. */
  function ComponentBits(q: Quality): nat { [5, 6, 8, 12][q] }

  function HingeBits(q: Quality): nat { [6, 7, 9, 13][q] }

  function TwistBits(q: Quality): nat { [5, 6, 8, 12][q] }

  function SingleBits(q: Quality): nat { [4, 4, 5, 7][q] }

  function CurlBits(q: Quality): nat { [5, 6, 7, 8][q] }

  function SplayBits(q: Quality): nat { [3, 4, 5, 6][q] }

  function DegreesOfFreedom(slot: nat): nat { if slot < 9 then 3 else if slot < 19 then 2 else 1 }

  /** The bits of a bone slot, or past those of a finger. */
  function RotationWidth(q: Quality, slot: nat): nat {
    if slot >= BONE_SLOTS then CurlBits(q) + SplayBits(q)
    else if DegreesOfFreedom(slot) == 3 then 2 + 3 * ComponentBits(q)
    else if DegreesOfFreedom(slot) == 2 then HingeBits(q) + TwistBits(q)
    else SingleBits(q)
  }

  /** `rotation_field_offsets`: the widths before a slot, added up. */
  function RotationOffset(q: Quality, slot: nat): nat {
    if slot == 0 then 0 else RotationOffset(q, slot - 1) + RotationWidth(q, slot - 1)
  }

  function Bone(q: Quality, slot: nat): Field {
    var bit := POSITION_BITS + RotationOffset(q, slot);
    if DegreesOfFreedom(slot) == 3 then
      var n := ComponentBits(q);
      [Channel(bit, 2, true), Channel(bit + 2, n, false), Channel(bit + 2 + n, n, false), Channel(bit + 2 + 2 * n, n, false)]
    else if DegreesOfFreedom(slot) == 2 then
      [Channel(bit, HingeBits(q), false), Channel(bit + HingeBits(q), TwistBits(q), false)]
    else [Channel(bit, SingleBits(q), false)]
  }

  /** The last finger also carries the bits that round the rotations up to whole bytes. */
  function Finger(q: Quality, slot: nat): Field {
    var bit := POSITION_BITS + RotationOffset(q, slot);
    var fingers := [Channel(bit, CurlBits(q), false), Channel(bit + CurlBits(q), SplayBits(q), false)];
    var used := RotationOffset(q, ROTATION_FIELDS - 1) + CurlBits(q) + SplayBits(q);
    if slot == ROTATION_FIELDS - 1 && 8 * RotationBytes(q) > used then
      fingers + [Channel(POSITION_BITS + used, 8 * RotationBytes(q) - used, true)]
    else fingers
  }

  function Quaternion(bit: nat): Field {
    [Channel(bit, 8, true), Channel(bit + 8, 16, false), Channel(bit + 24, 16, false), Channel(bit + 40, 16, false)]
  }

  function Effector(bit: nat): Field {
    [Channel(bit, 12, false), Channel(bit + 12, 12, false), Channel(bit + 24, 12, false), Channel(bit + 36, 2, true),
     Channel(bit + 38, 10, false), Channel(bit + 48, 10, false), Channel(bit + 58, 10, false)]
  }

  function Tail(q: Quality): nat { POSITION_BITS + 8 * RotationBytes(q) }

  function FieldAt(q: Quality, k: nat): Field
    requires k < FIELDS
  {
    var tail := Tail(q);
    if k == 0 then [Channel(0, 24, false), Channel(24, 24, false), Channel(48, 24, false)]
    else if k <= BONE_SLOTS then Bone(q, k - 1)
    else if k <= ROTATION_FIELDS then Finger(q, k - 1)
    else if k == 32 then [Channel(tail, 16, true)]
    else if k == 33 then Quaternion(tail + 16)
    else if k == 34 then
      [Channel(tail + 72, 13, false), Channel(tail + 85, 13, false), Channel(tail + 98, 13, false), Channel(tail + 111, 1, true)]
    else if k == 35 then Quaternion(tail + 112)
    else if q != HIGH then []
    else
      var bit := tail + 176;
      [Channel(tail + 168, 8, true)] + Effector(bit) + Effector(bit + 68) + Effector(bit + 136) + Effector(bit + 204)
  }

  function LayoutOf(q: Quality): (r: Layout)
    ensures |r| == FIELDS
  {
    seq(FIELDS, k requires 0 <= k < FIELDS => FieldAt(q, k))
  }

  // ---- Channel after channel, field after field ----

  /** Where channel j must begin. */
  function EndBefore(f: Field, j: nat, from: nat): nat
    requires j <= |f|
  {
    if j == 0 then from else f[j - 1].offset + f[j - 1].width
  }

  predicate LegalWidth(c: Channel) { 1 <= c.width <= 32 && (!c.raw ==> c.width <= 24) }

  /** The channels follow one another without a gap, and each is of legal width. */
  predicate Spans(f: Field, from: nat, end: nat) {
    && (forall j :: 0 <= j < |f| ==> LegalWidth(f[j]) && f[j].offset == EndBefore(f, j, from))
    && EndBefore(f, |f|, from) == end
  }

  lemma {:induction false} EndBeforeIs(f: Field, j: nat, from: nat)
    requires j <= |f|
    ensures EndBefore(f, 0, from) == from
    ensures j < |f| ==> EndBefore(f, j + 1, from) == f[j].offset + f[j].width
  {
  }

  lemma {:induction false} EndBeforeConcat(f: Field, g: Field, j: nat, from: nat)
    requires j <= |f| + |g|
    ensures EndBefore(f + g, j, from) == if j <= |f| then EndBefore(f, j, from) else EndBefore(g, j - |f|, EndBefore(f, |f|, from))
  {
  }

  lemma {:induction false} SpansConcat(f: Field, g: Field, from: nat, mid: nat, end: nat)
    requires Spans(f, from, mid) && Spans(g, mid, end)
    ensures Spans(f + g, from, end)
  {
    hide EndBefore, LegalWidth;
    var all := f + g;
    EndBeforeConcat(f, g, |all|, from);
    EndBeforeIs(g, 0, mid);
    forall j | 0 <= j < |all|
      ensures LegalWidth(all[j]) && all[j].offset == EndBefore(all, j, from)
    {
      EndBeforeConcat(f, g, j, from);
    }
  }

  lemma {:induction false} EndsGrow(f: Field, from: nat, end: nat, j: nat)
    requires Spans(f, from, end) && j <= |f|
    ensures EndBefore(f, j, from) <= end
    decreases |f| - j
  {
    hide EndBefore;
    if j < |f| {
      EndsGrow(f, from, end, j + 1);
      EndBeforeIs(f, j, from);
    }
  }

  lemma {:induction false} SpansLegal(f: Field, from: nat, end: nat, size: nat)
    requires Spans(f, from, end) && end <= size
    ensures LegalField(f, size)
  {
    hide EndBefore;
    forall j | 0 <= j < |f|
      ensures LegalChannel(f[j], size)
    {
      EndsGrow(f, from, end, j + 1);
      EndBeforeIs(f, j, from);
    }
  }

  lemma {:induction false} SpansCovers(f: Field, from: nat, end: nat, j: nat, b: nat)
    requires Spans(f, from, end) && j <= |f| && from <= b < EndBefore(f, j, from)
    ensures InField(f, b)
    decreases j
  {
    hide EndBefore;
    EndBeforeIs(f, 0, from);
    EndBeforeIs(f, j - 1, from);
    if !InChannel(f[j - 1], b) {
      SpansCovers(f, from, end, j - 1, b);
    }
  }

  lemma {:induction false} SpansCoversAll(f: Field, from: nat, end: nat, b: nat)
    requires Spans(f, from, end) && from <= b < end
    ensures InField(f, b)
  {
    hide InField;
    SpansCovers(f, from, end, |f|, b);
  }

  /** A run of slots of one width. */
  lemma {:induction false} EqualWidths(q: Quality, from: nat, n: nat, width: nat)
    requires forall i :: from <= i < from + n ==> RotationWidth(q, i) == width
    ensures RotationOffset(q, from + n) == RotationOffset(q, from) + n * width
    decreases n
  {
    hide RotationWidth;
    if n > 0 {
      EqualWidths(q, from, n - 1, width);
      assert n * width == (n - 1) * width + width;
    }
  }

  /** Nine bones of three degrees of freedom, ten of two, two of one, and fingers. */
  lemma {:induction false} LastOffset(q: Quality)
    ensures RotationOffset(q, ROTATION_FIELDS - 1)
            == 9 * (2 + 3 * ComponentBits(q)) + 10 * (HingeBits(q) + TwistBits(q)) + 2 * SingleBits(q) + 9 * (CurlBits(q) + SplayBits(q))
  {
    hide RotationOffset, ComponentBits, HingeBits, TwistBits, SingleBits, CurlBits, SplayBits;
    NoOffset(q);
    EqualWidths(q, 0, 9, 2 + 3 * ComponentBits(q));
    EqualWidths(q, 9, 10, HingeBits(q) + TwistBits(q));
    EqualWidths(q, 19, 2, SingleBits(q));
    EqualWidths(q, 21, 9, CurlBits(q) + SplayBits(q));
  }

  lemma {:induction false} NextOffset(q: Quality, slot: nat)
    ensures RotationOffset(q, slot + 1) == RotationOffset(q, slot) + RotationWidth(q, slot)
  {
  }

  lemma {:induction false} NoOffset(q: Quality)
    ensures RotationOffset(q, 0) == 0
  {
  }

  /** Where field k begins; field 37 would begin at the end of the payload. */
  function StartOf(q: Quality, k: nat): nat {
    if k == 0 then 0
    else if k <= ROTATION_FIELDS then POSITION_BITS + RotationOffset(q, k - 1)
    else if k == 32 then Tail(q)
    else if k == 33 then Tail(q) + 16
    else if k == 34 then Tail(q) + 72
    else if k == 35 then Tail(q) + 112
    else if k == 36 then Tail(q) + 168
    else 8 * PayloadBytes(q)
  }

  lemma {:induction false} BoneSpans(q: Quality, slot: nat)
    requires slot < BONE_SLOTS
    ensures Spans(Bone(q, slot), POSITION_BITS + RotationOffset(q, slot), POSITION_BITS + RotationOffset(q, slot + 1))
  {
    NextOffset(q, slot);
    WidthsAreLegal(q);
    hide RotationOffset, Spans, ComponentBits, HingeBits, TwistBits, SingleBits;
    var bit := POSITION_BITS + RotationOffset(q, slot);
    if DegreesOfFreedom(slot) == 3 {
      FourSpan(bit, 2, ComponentBits(q));
    } else if DegreesOfFreedom(slot) == 2 {
      TwoSpan(bit, HingeBits(q), TwistBits(q));
    } else {
      OneSpans(bit, SingleBits(q), false);
    }
  }

  lemma {:induction false} WidthsAreLegal(q: Quality)
    ensures 1 <= ComponentBits(q) <= 24 && 1 <= HingeBits(q) <= 24 && 1 <= TwistBits(q) <= 24 && 1 <= SingleBits(q) <= 24
    ensures 1 <= CurlBits(q) <= 24 && 1 <= SplayBits(q) <= 24
  {
  }

  lemma {:induction false} OneSpans(bit: nat, n: nat, raw: bool)
    requires 1 <= n <= 32 && (!raw ==> n <= 24)
    ensures Spans([Channel(bit, n, raw)], bit, bit + n)
  {
  }

  lemma {:induction false} TwoSpan(bit: nat, n: nat, m: nat)
    requires 1 <= n <= 24 && 1 <= m <= 24
    ensures Spans([Channel(bit, n, false), Channel(bit + n, m, false)], bit, bit + n + m)
  {
  }

  lemma {:induction false} FourSpan(bit: nat, n: nat, m: nat)
    requires 1 <= n <= 32 && 1 <= m <= 24
    ensures Spans([Channel(bit, n, true), Channel(bit + n, m, false), Channel(bit + n + m, m, false), Channel(bit + n + 2 * m, m, false)],
                  bit, bit + n + 3 * m)
  {
  }

  lemma {:induction false} FingerSpans(q: Quality, slot: nat)
    requires BONE_SLOTS <= slot < ROTATION_FIELDS
    ensures Spans(Finger(q, slot), POSITION_BITS + RotationOffset(q, slot),
                  if slot == ROTATION_FIELDS - 1 then Tail(q) else POSITION_BITS + RotationOffset(q, slot + 1))
  {
    WidthsAreLegal(q);
    var bit := POSITION_BITS + RotationOffset(q, slot);
    if slot == ROTATION_FIELDS - 1 {
      PaddingIsSmall(q);
      hide RotationOffset, Spans, CurlBits, SplayBits, RotationBytes;
      PaddedSpan(bit, CurlBits(q), SplayBits(q), Tail(q) - bit - CurlBits(q) - SplayBits(q));
    } else {
      NextOffset(q, slot);
      hide RotationOffset, Spans, CurlBits, SplayBits;
      TwoSpan(bit, CurlBits(q), SplayBits(q));
    }
  }

  lemma {:induction false} PaddedSpan(bit: nat, n: nat, m: nat, pad: nat)
    requires 1 <= n <= 24 && 1 <= m <= 24 && 1 <= pad <= 32
    ensures Spans([Channel(bit, n, false), Channel(bit + n, m, false)] + [Channel(bit + n + m, pad, true)], bit, bit + n + m + pad)
  {
  }

  /** At every quality a few bits round the rotations up. */
  lemma {:induction false} PaddingIsSmall(q: Quality)
    ensures var used := RotationOffset(q, ROTATION_FIELDS - 1) + CurlBits(q) + SplayBits(q);
            used < 8 * RotationBytes(q) <= used + 7
  {
    LastOffset(q);
    hide RotationOffset;
  }

  lemma {:induction false} QuaternionSpans(bit: nat)
    ensures Spans(Quaternion(bit), bit, bit + 56)
  {
  }

  lemma {:induction false} EffectorSpans(bit: nat)
    ensures Spans(Effector(bit), bit, bit + 68)
  {
  }

  lemma {:induction false} EffectorsSpan(q: Quality)
    requires q == HIGH
    ensures Spans(FieldAt(q, 36), Tail(q) + 168, 8 * PayloadBytes(q))
  {
    var tail := Tail(q);
    var bit := tail + 176;
    var head := [Channel(tail + 168, 8, true)];
    assert Spans(head, tail + 168, bit);
    hide Spans, Effector;
    EffectorSpans(bit);
    EffectorSpans(bit + 68);
    EffectorSpans(bit + 136);
    EffectorSpans(bit + 204);
    SpansConcat(head, Effector(bit), tail + 168, bit, bit + 68);
    SpansConcat(head + Effector(bit), Effector(bit + 68), tail + 168, bit + 68, bit + 136);
    SpansConcat(head + Effector(bit) + Effector(bit + 68), Effector(bit + 136), tail + 168, bit + 136, bit + 204);
    SpansConcat(head + Effector(bit) + Effector(bit + 68) + Effector(bit + 136), Effector(bit + 204), tail + 168, bit + 204, bit + 272);
  }

  lemma {:induction false} PositionSpans()
    ensures Spans([Channel(0, 24, false), Channel(24, 24, false), Channel(48, 24, false)], 0, POSITION_BITS)
  {
  }

  lemma {:induction false} HipsSpan(bit: nat)
    ensures Spans([Channel(bit, 13, false), Channel(bit + 13, 13, false), Channel(bit + 26, 13, false), Channel(bit + 39, 1, true)], bit, bit + 40)
  {
  }

  lemma {:induction false} NothingSpans(bit: nat)
    ensures Spans([], bit, bit)
  {
  }

  lemma {:induction false} EndWithoutEffectors(q: Quality)
    requires q != HIGH
    ensures Tail(q) + 168 == 8 * PayloadBytes(q)
  {
  }

  /** Each field takes up where the one before it left off. */
  lemma {:induction false} FieldSpans(q: Quality, k: nat)
    requires k < FIELDS
    ensures Spans(FieldAt(q, k), StartOf(q, k), StartOf(q, k + 1))
  {
    hide RotationOffset, Bone, Finger, Quaternion, Effector, Spans, Tail, PayloadBytes;
    if k == 0 {
      NoOffset(q);
      PositionSpans();
    } else if k <= BONE_SLOTS {
      BoneSpans(q, k - 1);
    } else if k <= ROTATION_FIELDS {
      FingerSpans(q, k - 1);
    } else if k == 32 {
      OneSpans(Tail(q), 16, true);
    } else if k == 33 {
      QuaternionSpans(Tail(q) + 16);
    } else if k == 34 {
      HipsSpan(Tail(q) + 72);
    } else if k == 35 {
      QuaternionSpans(Tail(q) + 112);
    } else if q == HIGH {
      EffectorsSpan(q);
    } else {
      EndWithoutEffectors(q);
      NothingSpans(Tail(q) + 168);
    }
  }

  lemma {:induction false} StartsGrow(q: Quality, k: nat)
    requires k <= FIELDS
    ensures StartOf(q, k) <= StartOf(q, FIELDS) == 8 * PayloadBytes(q)
    decreases FIELDS - k
  {
    hide StartOf, FieldAt;
    EndOfPayload(q);
    if k < FIELDS {
      FieldSpans(q, k);
      SpansForward(FieldAt(q, k), StartOf(q, k), StartOf(q, k + 1));
      StartsGrow(q, k + 1);
    }
  }

  lemma {:induction false} EndOfPayload(q: Quality)
    ensures StartOf(q, FIELDS) == 8 * PayloadBytes(q) && StartOf(q, 0) == 0
  {
  }

  lemma {:induction false} SpansForward(f: Field, from: nat, end: nat)
    requires Spans(f, from, end)
    ensures from <= end
  {
    EndsGrow(f, from, end, 0);
  }

  /** A bit before the start of field k lies in an earlier field. */
  lemma {:induction false} BitHasField(q: Quality, k: nat, b: nat)
    requires k <= FIELDS && b < StartOf(q, k)
    ensures InLayout(LayoutOf(q), b)
    decreases k
  {
    hide StartOf, FieldAt, Spans, InField;
    EndOfPayload(q);
    if k > 0 {
      if b < StartOf(q, k - 1) {
        BitHasField(q, k - 1, b);
      } else {
        FieldSpans(q, k - 1);
        SpansCoversAll(FieldAt(q, k - 1), StartOf(q, k - 1), StartOf(q, k), b);
        assert LayoutOf(q)[k - 1] == FieldAt(q, k - 1);
      }
    }
  }

  /** At every quality the layout is legal and covers the payload, so the codec inverts itself. */
  lemma {:induction false} LayoutIsComplete(q: Quality)
    ensures LegalLayout(LayoutOf(q), 8 * PayloadBytes(q)) && Covers(LayoutOf(q), 8 * PayloadBytes(q))
  {
    hide FieldAt, StartOf, Spans;
    var l, size := LayoutOf(q), 8 * PayloadBytes(q);
    forall k | 0 <= k < |l|
      ensures LegalField(l[k], size)
    {
      FieldSpans(q, k);
      StartsGrow(q, k + 1);
      SpansLegal(l[k], StartOf(q, k), StartOf(q, k + 1), size);
    }
    forall b | 0 <= b < size
      ensures InLayout(l, b)
    {
      StartsGrow(q, FIELDS);
      BitHasField(q, FIELDS, b);
    }
  }

  // ---- No bit twice ----

  lemma {:induction false} SpansWithin(f: Field, from: nat, end: nat, j: nat)
    requires Spans(f, from, end) && j < |f|
    ensures from <= f[j].offset && f[j].offset + f[j].width <= end
    decreases j
  {
    hide EndBefore;
    EndBeforeIs(f, j, from);
    EndsGrow(f, from, end, j + 1);
    if j > 0 {
      SpansWithin(f, from, end, j - 1);
      EndBeforeIs(f, j - 1, from);
    }
  }

  /** Of two channels of a field, the earlier one ends before the later one begins. */
  lemma {:induction false} SpansOrdered(f: Field, from: nat, end: nat, i: nat, j: nat)
    requires Spans(f, from, end) && i < j < |f|
    ensures f[i].offset + f[i].width <= f[j].offset
    decreases j
  {
    hide EndBefore;
    EndBeforeIs(f, j - 1, from);
    if i < j - 1 {
      SpansOrdered(f, from, end, i, j - 1);
    }
  }

  lemma {:induction false} StartsOrdered(q: Quality, i: nat, k: nat)
    requires i <= k <= FIELDS
    ensures StartOf(q, i) <= StartOf(q, k)
    decreases k - i
  {
    hide *;
    if i < k {
      FieldSpans(q, i);
      SpansForward(FieldAt(q, i), StartOf(q, i), StartOf(q, i + 1));
      StartsOrdered(q, i + 1, k);
    }
  }

  lemma {:induction false} FieldsAreApart(q: Quality, i: nat, k: nat, a: nat, b: nat)
    requires i < k < FIELDS && a < |FieldAt(q, i)| && b < |FieldAt(q, k)|
    ensures Apart(FieldAt(q, i)[a], FieldAt(q, k)[b]) && Apart(FieldAt(q, k)[b], FieldAt(q, i)[a])
  {
    hide StartOf, FieldAt, Spans;
    FieldSpans(q, i);
    FieldSpans(q, k);
    SpansWithin(FieldAt(q, i), StartOf(q, i), StartOf(q, i + 1), a);
    SpansWithin(FieldAt(q, k), StartOf(q, k), StartOf(q, k + 1), b);
    StartsOrdered(q, i + 1, k);
  }

  /** At every quality no bit of the payload belongs to two channels. */
  lemma {:induction false} LayoutIsSeparate(q: Quality)
    ensures Separate(LayoutOf(q))
  {
    hide FieldAt, StartOf, Spans, Apart;
    var l := LayoutOf(q);
    forall k | 0 <= k < |l|
      ensures SeparateField(l[k])
    {
      FieldIsSeparate(q, k);
    }
    forall i, k | 0 <= i < |l| && 0 <= k < |l| && i != k
      ensures ApartFields(l[i], l[k])
    {
      forall a, b | 0 <= a < |l[i]| && 0 <= b < |l[k]|
        ensures Apart(l[i][a], l[k][b])
      {
        if i < k {
          FieldsAreApart(q, i, k, a, b);
        } else {
          FieldsAreApart(q, k, i, b, a);
        }
      }
    }
  }

  lemma {:induction false} FieldIsSeparate(q: Quality, k: nat)
    requires k < FIELDS
    ensures SeparateField(FieldAt(q, k))
  {
    hide FieldAt, StartOf, Spans;
    var f := FieldAt(q, k);
    FieldSpans(q, k);
    forall i, j | 0 <= i < j < |f|
      ensures Apart(f[i], f[j])
    {
      SpansOrdered(f, StartOf(q, k), StartOf(q, k + 1), i, j);
    }
  }

  /** The widths of contiguous channels add up to what they span. */
  lemma {:induction false} SpansWidth(f: Field, from: nat, end: nat)
    requires Spans(f, from, end)
    ensures RawBits(f) == end - from
    decreases |f|
  {
    if f != [] {
      hide EndBefore, LegalWidth;
      EndBeforeIs(f, 0, from);
      TailSpans(f, from, end);
      SpansWidth(f[1..], from + f[0].width, end);
    }
  }

  lemma {:induction false} TailSpans(f: Field, from: nat, end: nat)
    requires Spans(f, from, end) && f != []
    ensures Spans(f[1..], from + f[0].width, end)
  {
  }

  lemma {:induction false} LayoutWidth(q: Quality, k: nat)
    requires k <= FIELDS
    ensures RawBitsOf(LayoutOf(q)[k..]) == StartOf(q, FIELDS) - StartOf(q, k)
    decreases FIELDS - k
  {
    hide StartOf, FieldAt, RawBits;
    if k < FIELDS {
      FieldSpans(q, k);
      SpansWidth(FieldAt(q, k), StartOf(q, k), StartOf(q, k + 1));
      LayoutWidth(q, k + 1);
      assert LayoutOf(q)[k..][1..] == LayoutOf(q)[k + 1..];
    }
  }

  const MASK_BYTES := (FIELDS + 7) / 8

  /** The builder's buffer, eight bytes longer than mask and payload, always suffices. */
  lemma {:induction false} DeltaFitsBuffer(q: Quality, base: seq<bool>, current: seq<bool>)
    requires |base| >= 8 * PayloadBytes(q) && |current| >= 8 * PayloadBytes(q)
    ensures Fits(LayoutOf(q), 8 * PayloadBytes(q), base, current)
    ensures |Build(LayoutOf(q), 8 * PayloadBytes(q), base, current)| <= 8 * (MASK_BYTES + PayloadBytes(q) + 8)
  {
    LayoutIsComplete(q);
    LayoutWidth(q, 0);
    EndOfPayload(q);
    hide StartOf, Body, DeltaCodec.Mask, RawBitsOf, LegalLayout, Covers, PayloadBytes;
    assert LayoutOf(q)[0..] == LayoutOf(q);
    BodyIsBounded(LayoutOf(q), 8 * PayloadBytes(q), base, current);
  }
}
