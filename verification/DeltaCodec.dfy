/**
 * The avatar delta codec: a mask of the fields that changed, and for each the new values either
 * raw or as Exp-Golomb coded differences, whichever is shorter. Payloads and delta bodies are
 * bit sequences, least significant bit of each byte first.
 */
module DeltaCodec {
  import opened Packets
  import opened Bits
  import opened BitPacking

  const WORD := 0x1_0000_0000

  /** A run of payload bits; a raw one is never coded as a difference. */
  datatype Channel = Channel(offset: nat, width: nat, raw: bool)

  type Field = seq<Channel>

  type Layout = seq<Field>

  predicate LegalChannel(c: Channel, size: nat) {
    1 <= c.width <= 32 && (!c.raw ==> c.width <= 24) && c.offset + c.width <= size
  }

  predicate LegalField(f: Field, size: nat) { forall j :: 0 <= j < |f| ==> LegalChannel(f[j], size) }

  predicate LegalLayout(l: Layout, size: nat) { forall k :: 0 <= k < |l| ==> LegalField(l[k], size) }

  predicate InChannel(c: Channel, b: nat) { c.offset <= b < c.offset + c.width }

  predicate InField(f: Field, b: nat) { exists j :: 0 <= j < |f| && InChannel(f[j], b) }

  predicate InLayout(l: Layout, b: nat) { exists k :: 0 <= k < |l| && InField(l[k], b) }

  /** Every payload bit belongs to some channel. */
  predicate Covers(l: Layout, size: nat) { forall b :: 0 <= b < size ==> InLayout(l, b) }

  function Read(bits: seq<bool>, c: Channel): nat
    requires c.offset + c.width <= |bits|
  {
    FromBits(bits[c.offset..c.offset + c.width])
  }

  function Replace(bits: seq<bool>, c: Channel, value: nat): (r: seq<bool>)
    requires c.offset + c.width <= |bits|
    ensures |r| == |bits|
  {
    Spliced(bits, c.offset, ToBits(value, c.width))
  }

  // ---- Exp-Golomb codes of signed numbers ----

  function ZigZag(v: int): nat { if v >= 0 then 2 * v else -2 * v - 1 }

  function UnZigZag(z: nat): int { if z % 2 == 0 then z / 2 else -(z / 2) - 1 }

  /** The binary digits of m, most significant first. */
  function Digits(m: nat): (r: seq<bool>)
    requires m > 0
    ensures |r| > 0 && r[0]
  {
    if m == 1 then [true] else Digits(m / 2) + [m % 2 == 1]
  }

  function Zeros(n: nat): (r: seq<bool>)
    ensures |r| == n
  {
    seq(n, _ => false)
  }

  function EgCode(v: int): seq<bool> {
    var digits := Digits(ZigZag(v) + 1);
    Zeros(|digits| - 1) + digits
  }

  /** `signed_eg_bits`. */
  function EgBits(v: int): nat { 2 * |Digits(ZigZag(v) + 1)| - 1 }

  function CountZeros(s: seq<bool>, pos: nat, zeros: nat): (r: Option<(nat, nat)>)
    requires zeros <= 32
    decreases |s| - pos
  {
    if pos >= |s| then None
    else if s[pos] then Some((zeros, pos + 1))
    else if zeros + 1 > 32 then None
    else CountZeros(s, pos + 1, zeros + 1)
  }

  /** The reader's 32-bit accumulator after one more digit. */
  function Shifted(m: nat, digit: bool): nat { (2 * m + if digit then 1 else 0) % WORD }

  function ReadDigits(s: seq<bool>, pos: nat, n: nat, m: nat): Option<(nat, nat)>
    decreases n
  {
    if n == 0 then Some((m, pos))
    else if pos >= |s| then None
    else ReadDigits(s, pos + 1, n - 1, Shifted(m, s[pos]))
  }

  /** `read_signed_eg`. */
  function ReadEg(s: seq<bool>, pos: nat): Option<(int, nat)> {
    var zeros := CountZeros(s, pos, 0);
    if zeros.None? then None
    else
      var m := ReadDigits(s, zeros.value.1, zeros.value.0, 1);
      if m.None? then None else Some((UnZigZag((m.value.0 - 1) % WORD), m.value.1))
  }

  /** The code is what the stream holds at this position. */
  predicate At(s: seq<bool>, pos: nat, code: seq<bool>) {
    pos + |code| <= |s| && s[pos..pos + |code|] == code
  }

  lemma {:induction false} AtSplit(s: seq<bool>, pos: nat, a: seq<bool>, b: seq<bool>)
    requires At(s, pos, a + b)
    ensures At(s, pos, a) && At(s, pos + |a|, b)
  {
    var whole := s[pos..pos + |a + b|];
    assert s[pos..pos + |a|] == whole[..|a|] == a;
    assert s[pos + |a|..pos + |a| + |b|] == whole[|a|..] == b;
  }

  lemma {:induction false} AtFirst(s: seq<bool>, pos: nat, code: seq<bool>)
    requires At(s, pos, code) && code != []
    ensures pos < |s| && s[pos] == code[0] && At(s, pos + 1, code[1..])
  {
  }

  lemma {:induction false} CountsZeros(s: seq<bool>, pos: nat, n: nat, zeros: nat)
    requires zeros + n <= 32 && At(s, pos, Zeros(n) + [true])
    ensures CountZeros(s, pos, zeros) == Some((zeros + n, pos + n + 1))
    decreases n
  {
    var code := Zeros(n) + [true];
    AtFirst(s, pos, code);
    if n > 0 {
      assert code[1..] == Zeros(n - 1) + [true];
      CountsZeros(s, pos + 1, n - 1, zeros + 1);
    }
  }

  function Accumulate(m: nat, digits: seq<bool>): nat
    decreases |digits|
  {
    if digits == [] then m else Accumulate(Shifted(m, digits[0]), digits[1..])
  }

  lemma {:induction false} ReadsDigits(s: seq<bool>, pos: nat, digits: seq<bool>, m: nat)
    requires At(s, pos, digits)
    ensures ReadDigits(s, pos, |digits|, m) == Some((Accumulate(m, digits), pos + |digits|))
    decreases |digits|
  {
    if digits != [] {
      AtFirst(s, pos, digits);
      ReadsDigits(s, pos + 1, digits[1..], Shifted(m, digits[0]));
    }
  }

  lemma {:induction false} AccumulateLast(m: nat, digits: seq<bool>, last: bool)
    ensures Accumulate(m, digits + [last]) == Shifted(Accumulate(m, digits), last)
    decreases |digits|
  {
    hide Shifted;
    if digits == [] {
      assert digits + [last] == [last] && [last][1..] == [];
      assert Accumulate(Shifted(m, last), [last][1..]) == Shifted(m, last);
    } else {
      assert (digits + [last])[1..] == digits[1..] + [last];
      AccumulateLast(Shifted(m, digits[0]), digits[1..], last);
    }
  }

  /** The digits after the leading one rebuild the number. */
  lemma {:induction false} DigitsAreNumber(m: nat)
    requires 0 < m < WORD
    ensures Accumulate(1, Digits(m)[1..]) == m
    decreases m
  {
    if m > 1 {
      DigitsAreNumber(m / 2);
      AccumulateLast(1, Digits(m / 2)[1..], m % 2 == 1);
      assert Digits(m)[1..] == Digits(m / 2)[1..] + [m % 2 == 1];
    }
  }

  lemma {:induction false} DigitsCount(m: nat, n: nat)
    requires 0 < m < Pow2(n)
    ensures |Digits(m)| <= n
    decreases n
  {
    if m > 1 {
      DigitsCount(m / 2, n - 1);
    }
  }

  lemma {:induction false} ZigZagInverse(v: int)
    ensures UnZigZag(ZigZag(v)) == v
  {
  }

  lemma {:induction false} WordIsPow()
    ensures Pow2(32) == WORD
  {
    Pow8();
    PowSum(8, 8);
    PowSum(16, 16);
  }

  /** A number in range is read back from its code, and the reader stops at its end. */
  lemma {:induction false} EgRoundTrip(s: seq<bool>, pos: nat, v: int)
    requires ZigZag(v) + 1 < WORD && At(s, pos, EgCode(v))
    ensures ReadEg(s, pos) == Some((v, pos + |EgCode(v)|))
  {
    hide Digits, Pow2, ZigZag, UnZigZag, CountZeros, ReadDigits, Accumulate, Zeros, At, EgCode;
    var m := ZigZag(v) + 1;
    var digits := Digits(m);
    var n := |digits| - 1;
    WordIsPow();
    DigitsCount(m, 32);
    EgSplit(s, pos, v);
    CountsZeros(s, pos, n, 0);
    ReadsDigits(s, pos + n + 1, digits[1..], 1);
    DigitsAreNumber(m);
    ZigZagInverse(v);
  }

  lemma {:induction false} EgSplit(s: seq<bool>, pos: nat, v: int)
    requires At(s, pos, EgCode(v))
    ensures var digits := Digits(ZigZag(v) + 1);
            At(s, pos, Zeros(|digits| - 1) + [true]) && At(s, pos + |digits|, digits[1..]) && |EgCode(v)| == 2 * |digits| - 1
  {
    hide At, Zeros, Digits;
    var digits := Digits(ZigZag(v) + 1);
    assert EgCode(v) == (Zeros(|digits| - 1) + [true]) + digits[1..];
    AtSplit(s, pos, Zeros(|digits| - 1) + [true], digits[1..]);
  }

  // ---- Differences ----

  /** `wrap_signed`: the representative of d modulo two to the width that is nearest zero. */
  function WrapSigned(d: int, width: nat): int
    requires width > 0
  {
    var r := d % Pow2(width);
    if r < Pow2(width - 1) then r else r - Pow2(width)
  }

  lemma {:induction false} ModIs(x: int, p: nat, c: int)
    requires 0 <= c < p && (x == c || x == c + p || x == c - p)
    ensures x % p == c
  {
  }

  /** Adding the wrapped difference to the base restores the value, and it is small. */
  lemma {:induction false} DifferenceRestores(base: nat, value: nat, width: nat)
    requires 0 < width <= 24 && base < Pow2(width) && value < Pow2(width)
    ensures var d := WrapSigned(value - base, width);
            (base + d) % Pow2(width) == value && ZigZag(d) + 1 < WORD
  {
    var p, half := Pow2(width), Pow2(width - 1);
    var d := value - base;
    ModIs(d, p, if d >= 0 then d else d + p);
    var w := WrapSigned(d, width);
    ModIs(base + w, p, value);
    HalfIsSmall(width);
  }

  lemma {:induction false} HalfIsSmall(width: nat)
    requires 0 < width <= 24
    ensures Pow2(width) <= 0x100_0000
    decreases 24 - width
  {
    if width == 24 {
      Pow8();
      PowSum(8, 8);
      PowSum(16, 8);
    } else {
      HalfIsSmall(width + 1);
    }
  }

  // ---- Building ----

  predicate Differ(base: seq<bool>, current: seq<bool>, c: Channel)
    requires c.offset + c.width <= |base| && c.offset + c.width <= |current|
  {
    Read(current, c) != Read(base, c)
  }

  /** Both payloads have room for the layout. */
  predicate Fits(l: Layout, size: nat, base: seq<bool>, current: seq<bool>) {
    LegalLayout(l, size) && |base| >= size && |current| >= size
  }

  predicate FitsField(f: Field, size: nat, base: seq<bool>, current: seq<bool>) {
    LegalField(f, size) && |base| >= size && |current| >= size
  }

  predicate Dirty(f: Field, size: nat, base: seq<bool>, current: seq<bool>)
    requires FitsField(f, size, base, current)
  {
    exists j :: 0 <= j < |f| && Differ(base, current, f[j])
  }

  function Residual(base: seq<bool>, current: seq<bool>, c: Channel): int
    requires c.width > 0 && c.offset + c.width <= |base| && c.offset + c.width <= |current|
  {
    WrapSigned(Read(current, c) - Read(base, c), c.width)
  }

  function RawBits(f: Field): nat { if f == [] then 0 else f[0].width + RawBits(f[1..]) }

  function ResidualBits(f: Field, size: nat, base: seq<bool>, current: seq<bool>): nat
    requires FitsField(f, size, base, current)
  {
    if f == [] then 0
    else
      assert LegalChannel(f[0], size);
      (if f[0].raw then f[0].width else EgBits(Residual(base, current, f[0]))) + ResidualBits(f[1..], size, base, current)
  }

  function ChannelCode(base: seq<bool>, current: seq<bool>, c: Channel, rawMode: bool): seq<bool>
    requires c.width > 0 && c.offset + c.width <= |base| && c.offset + c.width <= |current|
  {
    if rawMode || c.raw then ToBits(Read(current, c), c.width) else EgCode(Residual(base, current, c))
  }

  function ChannelCodes(f: Field, size: nat, base: seq<bool>, current: seq<bool>, rawMode: bool): seq<bool>
    requires FitsField(f, size, base, current)
  {
    if f == [] then []
    else
      assert LegalChannel(f[0], size);
      ChannelCode(base, current, f[0], rawMode) + ChannelCodes(f[1..], size, base, current, rawMode)
  }

  predicate RawIsShorter(f: Field, size: nat, base: seq<bool>, current: seq<bool>)
    requires FitsField(f, size, base, current)
  {
    RawBits(f) < ResidualBits(f, size, base, current)
  }

  function FieldCode(f: Field, size: nat, base: seq<bool>, current: seq<bool>): seq<bool>
    requires FitsField(f, size, base, current)
  {
    var rawMode := RawIsShorter(f, size, base, current);
    [rawMode] + ChannelCodes(f, size, base, current, rawMode)
  }

  function Body(l: Layout, size: nat, base: seq<bool>, current: seq<bool>): seq<bool>
    requires Fits(l, size, base, current)
  {
    if l == [] then []
    else
      assert LegalField(l[0], size);
      if Dirty(l[0], size, base, current) then FieldCode(l[0], size, base, current) + Body(l[1..], size, base, current)
      else Body(l[1..], size, base, current)
  }

  function Mask(l: Layout, size: nat, base: seq<bool>, current: seq<bool>): (r: seq<bool>)
    requires Fits(l, size, base, current)
    ensures |r| == |l|
  {
    seq(|l|, k requires 0 <= k < |l| => assert LegalField(l[k], size); Dirty(l[k], size, base, current))
  }

  /** Filled up with zeros to whole bytes. */
  function Padded(bits: seq<bool>): (r: seq<bool>)
    ensures |r| % 8 == 0 && |r| == (|bits| + 7) / 8 * 8 && bits <= r
  {
    bits + Zeros((8 - |bits| % 8) % 8)
  }

  /** `build_delta`. */
  function Build(l: Layout, size: nat, base: seq<bool>, current: seq<bool>): (r: seq<bool>)
    requires Fits(l, size, base, current)
    ensures |r| % 8 == 0
  {
    Padded(Mask(l, size, base, current)) + Padded(Body(l, size, base, current))
  }

  // ---- Applying ----

  /** The value of one channel and where its code ends. */
  function ReadValue(base: seq<bool>, s: seq<bool>, pos: nat, c: Channel, rawMode: bool): Option<(nat, nat)>
    requires c.width > 0 && c.offset + c.width <= |base|
  {
    if rawMode || c.raw then
      (if pos + c.width > |s| then None else Some((FromBits(s[pos..pos + c.width]), pos + c.width)))
    else
      var diff := ReadEg(s, pos);
      if diff.None? then None else Some(((Read(base, c) + diff.value.0) % Pow2(c.width), diff.value.1))
  }

  function ApplyChannels(f: Field, size: nat, base: seq<bool>, s: seq<bool>, pos: nat, rawMode: bool, out: seq<bool>): Option<(seq<bool>, nat)>
    requires LegalField(f, size) && |base| >= size && |out| == size
    decreases |f|
  {
    if f == [] then Some((out, pos))
    else
      assert LegalChannel(f[0], size);
      var v := ReadValue(base, s, pos, f[0], rawMode);
      if v.None? then None
      else ApplyChannels(f[1..], size, base, s, v.value.1, rawMode, Replace(out, f[0], v.value.0))
  }

  lemma {:induction false} ApplyChannelsKeepsSize(f: Field, size: nat, base: seq<bool>, s: seq<bool>, pos: nat, rawMode: bool, out: seq<bool>)
    requires LegalField(f, size) && |base| >= size && |out| == size
    ensures var r := ApplyChannels(f, size, base, s, pos, rawMode, out); r.Some? ==> |r.value.0| == size
    decreases |f|
  {
    if f != [] {
      assert LegalChannel(f[0], size);
      var v := ReadValue(base, s, pos, f[0], rawMode);
      if v.Some? {
        ApplyChannelsKeepsSize(f[1..], size, base, s, v.value.1, rawMode, Replace(out, f[0], v.value.0));
      }
    }
  }

  /** The fields from `k` on whose mask bit is set, in turn. */
  function ApplyFields(l: Layout, size: nat, k: nat, base: seq<bool>, s: seq<bool>, pos: nat, out: seq<bool>): Option<(seq<bool>, nat)>
    requires LegalLayout(l, size) && k <= |l| <= |s| && |base| >= size && |out| == size
    decreases |l| - k
  {
    if k == |l| then Some((out, pos))
    else if !s[k] then ApplyFields(l, size, k + 1, base, s, pos, out)
    else if pos >= |s| then None
    else
      assert LegalField(l[k], size);
      var r := ApplyChannels(l[k], size, base, s, pos + 1, s[pos], out);
      if r.None? then None
      else
        ApplyChannelsKeepsSize(l[k], size, base, s, pos + 1, s[pos], out);
        ApplyFields(l, size, k + 1, base, s, r.value.1, r.value.0)
  }

  /** `apply_delta`: the payload and how many bytes of the input the delta took. */
  function Apply(l: Layout, size: nat, base: seq<bool>, s: seq<bool>): Option<(seq<bool>, nat)>
    requires LegalLayout(l, size)
  {
    var maskBytes := (|l| + 7) / 8;
    if |base| < size || |s| < 8 * maskBytes then None
    else
      var r := ApplyFields(l, size, 0, base, s, 8 * maskBytes, base[..size]);
      if r.None? then None
      else
        var used := maskBytes + (r.value.1 - 8 * maskBytes + 7) / 8;
        if 8 * used > |s| || used < 0 then None else Some((r.value.0, used))
  }

  // ---- The round trip ----

  /** The number a channel gets when the delta from `base` to `current` is applied to `held`. */
  function Landed(held: seq<bool>, base: seq<bool>, current: seq<bool>, c: Channel, rawMode: bool): (r: nat)
    requires c.width > 0 && c.offset + c.width <= |held| && c.offset + c.width <= |base| && c.offset + c.width <= |current|
    ensures r < Pow2(c.width)
  {
    if rawMode || c.raw then Read(current, c) else (Read(held, c) + Residual(base, current, c)) % Pow2(c.width)
  }

  /** A payload with the channels of a field patched. */
  function PatchField(f: Field, size: nat, held: seq<bool>, base: seq<bool>, current: seq<bool>, rawMode: bool, out: seq<bool>): (r: seq<bool>)
    requires FitsField(f, size, base, current) && |held| >= size && |out| == size
    ensures |r| == size
    decreases |f|
  {
    if f == [] then out
    else
      assert LegalChannel(f[0], size);
      PatchField(f[1..], size, held, base, current, rawMode, Replace(out, f[0], Landed(held, base, current, f[0], rawMode)))
  }

  function PatchFrom(l: Layout, size: nat, k: nat, held: seq<bool>, base: seq<bool>, current: seq<bool>, out: seq<bool>): (r: seq<bool>)
    requires Fits(l, size, base, current) && |held| >= size && k <= |l| && |out| == size
    ensures |r| == size
    decreases |l| - k
  {
    if k == |l| then out
    else
      assert LegalField(l[k], size);
      PatchFrom(l, size, k + 1, held, base, current,
                if Dirty(l[k], size, base, current)
                then PatchField(l[k], size, held, base, current, RawIsShorter(l[k], size, base, current), out) else out)
  }

  lemma {:induction false} ResidualIsSmall(base: seq<bool>, current: seq<bool>, c: Channel, size: nat)
    requires LegalChannel(c, size) && !c.raw && |base| >= size && |current| >= size
    ensures ZigZag(Residual(base, current, c)) + 1 < WORD
  {
    DifferenceRestores(Read(base, c), Read(current, c), c.width);
  }

  /** Each value is read back as it was written, on top of what is held. */
  lemma {:induction false} ReadsValue(held: seq<bool>, base: seq<bool>, current: seq<bool>, s: seq<bool>, pos: nat, c: Channel, size: nat, rawMode: bool)
    requires LegalChannel(c, size) && |held| >= size && |base| >= size && |current| >= size
    requires At(s, pos, ChannelCode(base, current, c, rawMode))
    ensures ReadValue(held, s, pos, c, rawMode)
            == Some((Landed(held, base, current, c, rawMode), pos + |ChannelCode(base, current, c, rawMode)|))
  {
    if rawMode || c.raw {
      hide Pow2, ToBits, FromBits, Residual, ReadEg, EgCode;
      FromTo(Read(current, c), c.width);
    } else {
      ResidualIsSmall(base, current, c, size);
      hide Pow2, Residual, ReadEg, EgCode, At, Read, ZigZag;
      EgRoundTrip(s, pos, Residual(base, current, c));
    }
  }

  lemma {:induction false} AppliesChannels(f: Field, size: nat, held: seq<bool>, base: seq<bool>, current: seq<bool>, s: seq<bool>, pos: nat, rawMode: bool, out: seq<bool>)
    requires FitsField(f, size, base, current) && |held| >= size && |out| == size
    requires At(s, pos, ChannelCodes(f, size, base, current, rawMode))
    ensures ApplyChannels(f, size, held, s, pos, rawMode, out)
            == Some((PatchField(f, size, held, base, current, rawMode, out), pos + |ChannelCodes(f, size, base, current, rawMode)|))
    decreases |f|
  {
    hide ReadValue, ChannelCode, Read, Replace, At, Landed;
    if f != [] {
      assert LegalChannel(f[0], size);
      AtSplit(s, pos, ChannelCode(base, current, f[0], rawMode), ChannelCodes(f[1..], size, base, current, rawMode));
      ReadsValue(held, base, current, s, pos, f[0], size, rawMode);
      AppliesChannels(f[1..], size, held, base, current, s, pos + |ChannelCode(base, current, f[0], rawMode)|, rawMode,
                      Replace(out, f[0], Landed(held, base, current, f[0], rawMode)));
    }
  }

  /** The stream begins with the mask. */
  predicate Masked(l: Layout, size: nat, base: seq<bool>, current: seq<bool>, s: seq<bool>)
    requires Fits(l, size, base, current)
  {
    |l| <= |s| && s[..|l|] == Mask(l, size, base, current)
  }

  lemma {:induction false} AppliesFields(l: Layout, size: nat, k: nat, held: seq<bool>, base: seq<bool>, current: seq<bool>, s: seq<bool>, pos: nat, out: seq<bool>)
    requires Fits(l, size, base, current) && |held| >= size && k <= |l| && |out| == size && Masked(l, size, base, current, s)
    requires Fits(l[k..], size, base, current) && At(s, pos, Body(l[k..], size, base, current))
    ensures ApplyFields(l, size, k, held, s, pos, out)
            == Some((PatchFrom(l, size, k, held, base, current, out), pos + |Body(l[k..], size, base, current)|))
    decreases |l| - k
  {
    hide ChannelCodes, RawIsShorter, At, LegalField, Dirty, PatchField, ApplyChannels;
    if k < |l| {
      assert LegalField(l[k], size);
      FieldsFit(l, size, k, base, current);
      var rest := l[k + 1..];
      assert l[k..][1..] == rest && l[k..][0] == l[k];
      assert s[k] == s[..|l|][k] == Dirty(l[k], size, base, current);
      if s[k] {
        var code := FieldCode(l[k], size, base, current);
        AtSplit(s, pos, code, Body(rest, size, base, current));
        AtFirst(s, pos, code);
        var rawMode := code[0];
        assert code[1..] == ChannelCodes(l[k], size, base, current, rawMode);
        AppliesChannels(l[k], size, held, base, current, s, pos + 1, rawMode, out);
        AppliesFields(l, size, k + 1, held, base, current, s, pos + |code|, PatchField(l[k], size, held, base, current, rawMode, out));
      } else {
        AppliesFields(l, size, k + 1, held, base, current, s, pos, out);
      }
    }
  }

  lemma {:induction false} FieldsFit(l: Layout, size: nat, k: nat, base: seq<bool>, current: seq<bool>)
    requires Fits(l, size, base, current) && k < |l|
    ensures Fits(l[k + 1..], size, base, current) && FitsField(l[k], size, base, current)
  {
  }

  // ---- Every bit is restored ----

  /** On the payload the delta was built from, every channel gets its current number. */
  lemma {:induction false} LandsOnCurrent(base: seq<bool>, current: seq<bool>, c: Channel, size: nat, rawMode: bool)
    requires LegalChannel(c, size) && |base| >= size && |current| >= size
    ensures Landed(base, base, current, c, rawMode) == Read(current, c)
  {
    if !rawMode && !c.raw {
      DifferenceRestores(Read(base, c), Read(current, c), c.width);
    }
  }

  lemma {:induction false} PatchOne(out: seq<bool>, c: Channel, current: seq<bool>, size: nat, b: nat)
    requires LegalChannel(c, size) && |out| == size <= |current| && b < size
    ensures Replace(out, c, Read(current, c))[b] == if InChannel(c, b) then current[b] else out[b]
  {
    hide ToBits, FromBits, Spliced;
    var bits := current[c.offset..c.offset + c.width];
    ToFrom(bits);
    assert Replace(out, c, Read(current, c)) == Spliced(out, c.offset, bits);
    SplicedReads(out, c.offset, bits);
    if InChannel(c, b) {
      assert Spliced(out, c.offset, bits)[c.offset..c.offset + |bits|][b - c.offset] == bits[b - c.offset];
    }
  }

  lemma {:induction false} PatchFieldBit(f: Field, size: nat, base: seq<bool>, current: seq<bool>, rawMode: bool, out: seq<bool>, b: nat)
    requires FitsField(f, size, base, current) && |out| == size && b < size
    ensures PatchField(f, size, base, base, current, rawMode, out)[b] == if InField(f, b) then current[b] else out[b]
    decreases |f|
  {
    hide Replace, Read, Landed;
    if f != [] {
      assert LegalChannel(f[0], size);
      LandsOnCurrent(base, current, f[0], size, rawMode);
      PatchOne(out, f[0], current, size, b);
      PatchFieldBit(f[1..], size, base, current, rawMode, Replace(out, f[0], Read(current, f[0])), b);
      InFieldHead(f, b);
    }
  }

  lemma {:induction false} InFieldHead(f: Field, b: nat)
    requires f != []
    ensures InField(f, b) <==> InChannel(f[0], b) || InField(f[1..], b)
  {
    hide InChannel;
    assert forall j :: 0 <= j < |f| - 1 ==> f[1..][j] == f[j + 1];
    if InField(f, b) && !InChannel(f[0], b) {
      var j :| 0 <= j < |f| && InChannel(f[j], b);
      assert InChannel(f[1..][j - 1], b);
    }
  }

  /** Equal numbers in a channel mean equal bits. */
  lemma {:induction false} CleanBit(f: Field, size: nat, base: seq<bool>, current: seq<bool>, b: nat)
    requires FitsField(f, size, base, current) && !Dirty(f, size, base, current) && b < size && InField(f, b)
    ensures base[b] == current[b]
  {
    hide Read;
    var j :| 0 <= j < |f| && InChannel(f[j], b);
    assert LegalChannel(f[j], size) && !Differ(base, current, f[j]);
    SameNumberSameBit(f[j], size, base, current, b);
  }

  lemma {:induction false} SameNumberSameBit(c: Channel, size: nat, base: seq<bool>, current: seq<bool>, b: nat)
    requires LegalChannel(c, size) && |base| >= size && |current| >= size && InChannel(c, b) && Read(base, c) == Read(current, c)
    ensures base[b] == current[b]
  {
    hide ToBits, FromBits;
    var x, y := base[c.offset..c.offset + c.width], current[c.offset..c.offset + c.width];
    ToFrom(x);
    ToFrom(y);
    assert x[b - c.offset] == y[b - c.offset];
  }

  lemma {:induction false} PatchFromBit(l: Layout, size: nat, k: nat, base: seq<bool>, current: seq<bool>, out: seq<bool>, b: nat)
    requires Fits(l, size, base, current) && k <= |l| && |out| == size && b < size
    requires out[b] == current[b] || (out[b] == base[b] && exists i :: k <= i < |l| && InField(l[i], b))
    ensures PatchFrom(l, size, k, base, base, current, out)[b] == current[b]
    decreases |l| - k
  {
    hide PatchField, Dirty, InField, RawIsShorter;
    if k < |l| {
      assert LegalField(l[k], size);
      var dirty, rawMode := Dirty(l[k], size, base, current), RawIsShorter(l[k], size, base, current);
      var next := if dirty then PatchField(l[k], size, base, base, current, rawMode, out) else out;
      PatchFieldBit(l[k], size, base, current, rawMode, out, b);
      if InField(l[k], b) && !dirty {
        CleanBit(l[k], size, base, current, b);
      }
      PatchFromBit(l, size, k + 1, base, current, next, b);
    }
  }

  lemma {:induction false} PatchRestores(l: Layout, size: nat, base: seq<bool>, current: seq<bool>)
    requires Fits(l, size, base, current) && Covers(l, size)
    ensures PatchFrom(l, size, 0, base, base, current, base[..size]) == current[..size]
  {
    hide PatchFrom;
    forall b | 0 <= b < size
      ensures PatchFrom(l, size, 0, base, base, current, base[..size])[b] == current[b]
    {
      assert InLayout(l, b);
      var i :| 0 <= i < |l| && InField(l[i], b);
      PatchFromBit(l, size, 0, base, current, base[..size], b);
    }
  }

  lemma {:induction false} BeginsWithMask(l: Layout, size: nat, base: seq<bool>, current: seq<bool>, s: seq<bool>)
    requires Fits(l, size, base, current) && |l| <= |s| && s[..|l|] == Mask(l, size, base, current)
    ensures Masked(l, size, base, current, s)
  {
  }

  lemma {:induction false} TwoParts(mask: seq<bool>, body: seq<bool>, trailing: seq<bool>)
    ensures var s := Padded(mask) + Padded(body) + trailing;
            |mask| <= |s| && s[..|mask|] == mask && At(s, |Padded(mask)|, body)
  {
    hide Padded;
    var s, pos := Padded(mask) + Padded(body) + trailing, |Padded(mask)|;
    assert s[..|mask|] == Padded(mask)[..|mask|] == mask;
    assert s[pos..pos + |body|] == Padded(body)[..|body|] == body;
  }

  /** What applying a built delta to any payload gives, whatever bytes follow it. */
  lemma {:induction false} AppliesBuilt(l: Layout, size: nat, held: seq<bool>, base: seq<bool>, current: seq<bool>, trailing: seq<bool>)
    requires Fits(l, size, base, current) && |held| >= size
    ensures Apply(l, size, held, Build(l, size, base, current) + trailing)
            == Some((PatchFrom(l, size, 0, held, base, current, held[..size]), |Build(l, size, base, current)| / 8))
  {
    hide Body, Mask, ApplyFields, PatchFrom;
    var mask, body := Mask(l, size, base, current), Body(l, size, base, current);
    var s, pos := Build(l, size, base, current) + trailing, |Padded(mask)|;
    TwoParts(mask, body, trailing);
    hide Padded, At, Masked;
    assert Masked(l, size, base, current, s) by {
      BeginsWithMask(l, size, base, current, s);
    }
    assert l[0..] == l;
    AppliesFields(l, size, 0, held, base, current, s, pos, held[..size]);
  }

  /**
   * The codec inverts itself: applying what was built, whatever bytes follow it, gives the current
   * payload and the exact length of the delta. The layout must cover the payload.
   */
  lemma {:induction false} ApplyInvertsBuild(l: Layout, size: nat, base: seq<bool>, current: seq<bool>, trailing: seq<bool>)
    requires Fits(l, size, base, current) && Covers(l, size)
    ensures Apply(l, size, base, Build(l, size, base, current) + trailing) == Some((current[..size], |Build(l, size, base, current)| / 8))
  {
    hide Build, Apply, PatchFrom;
    AppliesBuilt(l, size, base, base, current, trailing);
    PatchRestores(l, size, base, current);
  }

  // ---- A delta on another base ----

  predicate Apart(c: Channel, d: Channel) { c.offset + c.width <= d.offset || d.offset + d.width <= c.offset }

  predicate SeparateField(f: Field) { forall i, j :: 0 <= i < j < |f| ==> Apart(f[i], f[j]) }

  predicate ApartFrom(f: Field, c: Channel) { forall j :: 0 <= j < |f| ==> Apart(f[j], c) }

  predicate ApartFields(f: Field, g: Field) { forall j :: 0 <= j < |g| ==> ApartFrom(f, g[j]) }

  /** No bit belongs to two channels. */
  predicate Separate(l: Layout) {
    && (forall k :: 0 <= k < |l| ==> SeparateField(l[k]))
    && (forall i, k :: 0 <= i < |l| && 0 <= k < |l| && i != k ==> ApartFields(l[i], l[k]))
  }

  lemma {:induction false} ReplaceReads(out: seq<bool>, c: Channel, value: nat)
    requires c.offset + c.width <= |out| && value < Pow2(c.width)
    ensures Read(Replace(out, c, value), c) == value
  {
    hide ToBits, FromBits, Pow2;
    SplicedReads(out, c.offset, ToBits(value, c.width));
    FromTo(value, c.width);
    assert Replace(out, c, value)[c.offset..c.offset + c.width] == ToBits(value, c.width);
  }

  lemma {:induction false} ReplaceKeeps(out: seq<bool>, c: Channel, value: nat, d: Channel)
    requires c.offset + c.width <= |out| && d.offset + d.width <= |out| && Apart(c, d)
    ensures Read(Replace(out, c, value), d) == Read(out, d)
  {
    hide ToBits, FromBits, Pow2;
    SplicedReads(out, c.offset, ToBits(value, c.width));
    assert Replace(out, c, value)[d.offset..d.offset + d.width] == out[d.offset..d.offset + d.width];
  }

  lemma {:induction false} PatchFieldKeeps(f: Field, size: nat, held: seq<bool>, base: seq<bool>, current: seq<bool>, rawMode: bool, out: seq<bool>, c: Channel)
    requires FitsField(f, size, base, current) && |held| >= size && |out| == size
    requires LegalChannel(c, size) && ApartFrom(f, c)
    ensures Read(PatchField(f, size, held, base, current, rawMode, out), c) == Read(out, c)
    decreases |f|
  {
    hide Replace, Read, Landed, Apart;
    if f != [] {
      assert LegalChannel(f[0], size) && Apart(f[0], c);
      var v := Landed(held, base, current, f[0], rawMode);
      ReplaceKeeps(out, f[0], v, c);
      PatchFieldKeeps(f[1..], size, held, base, current, rawMode, Replace(out, f[0], v), c);
    }
  }

  lemma {:induction false} PatchFieldReads(f: Field, size: nat, held: seq<bool>, base: seq<bool>, current: seq<bool>, rawMode: bool, out: seq<bool>, j: nat)
    requires FitsField(f, size, base, current) && |held| >= size && |out| == size
    requires SeparateField(f) && j < |f| && LegalChannel(f[j], size)
    ensures Read(PatchField(f, size, held, base, current, rawMode, out), f[j]) == Landed(held, base, current, f[j], rawMode)
    decreases |f|
  {
    hide Replace, Read, Landed, Apart;
    assert LegalChannel(f[0], size);
    var v := Landed(held, base, current, f[0], rawMode);
    if j == 0 {
      ReplaceReads(out, f[0], v);
      ApartBothWays(f);
      PatchFieldKeeps(f[1..], size, held, base, current, rawMode, Replace(out, f[0], v), f[0]);
    } else {
      assert f[1..][j - 1] == f[j];
      PatchFieldReads(f[1..], size, held, base, current, rawMode, Replace(out, f[0], v), j - 1);
    }
  }

  lemma {:induction false} ApartBothWays(f: Field)
    requires SeparateField(f) && f != []
    ensures ApartFrom(f[1..], f[0])
  {
    forall j | 0 <= j < |f[1..]|
      ensures Apart(f[1..][j], f[0])
    {
      assert Apart(f[0], f[j + 1]);
    }
  }

  /** A channel of field i, after the fields from k on have been patched. */
  function PatchedNumber(f: Field, size: nat, held: seq<bool>, base: seq<bool>, current: seq<bool>, j: nat): nat
    requires FitsField(f, size, base, current) && |held| >= size && j < |f|
  {
    assert LegalChannel(f[j], size);
    if Dirty(f, size, base, current) then Landed(held, base, current, f[j], RawIsShorter(f, size, base, current)) else Read(held, f[j])
  }

  lemma {:induction false} LaterFieldsKeep(l: Layout, size: nat, k: nat, held: seq<bool>, base: seq<bool>, current: seq<bool>, out: seq<bool>, c: Channel)
    requires Fits(l, size, base, current) && |held| >= size && k <= |l| && |out| == size && LegalChannel(c, size)
    requires forall i :: k <= i < |l| ==> ApartFrom(l[i], c)
    ensures Read(PatchFrom(l, size, k, held, base, current, out), c) == Read(out, c)
    decreases |l| - k
  {
    hide PatchField, Dirty, RawIsShorter, Read, ApartFrom;
    if k < |l| {
      FieldsFit(l, size, k, base, current);
      var rawMode := RawIsShorter(l[k], size, base, current);
      PatchFieldKeeps(l[k], size, held, base, current, rawMode, out, c);
      var next := if Dirty(l[k], size, base, current) then PatchField(l[k], size, held, base, current, rawMode, out) else out;
      LaterFieldsKeep(l, size, k + 1, held, base, current, next, c);
    }
  }

  lemma {:induction false} PatchFromReads(l: Layout, size: nat, k: nat, held: seq<bool>, base: seq<bool>, current: seq<bool>, out: seq<bool>, i: nat, j: nat)
    requires Fits(l, size, base, current) && |held| >= size && k <= i < |l| && |out| == size && Separate(l)
    requires FitsField(l[i], size, base, current) && j < |l[i]| && LegalChannel(l[i][j], size)
    requires Read(out, l[i][j]) == Read(held, l[i][j])
    ensures Read(PatchFrom(l, size, k, held, base, current, out), l[i][j]) == PatchedNumber(l[i], size, held, base, current, j)
    decreases i - k
  {
    hide PatchField, Dirty, RawIsShorter, Read, Landed, Apart, SeparateField, ApartFields;
    FieldsFit(l, size, k, base, current);
    var c, rawMode := l[i][j], RawIsShorter(l[k], size, base, current);
    var next := if Dirty(l[k], size, base, current) then PatchField(l[k], size, held, base, current, rawMode, out) else out;
    if k == i {
      PatchFieldReads(l[k], size, held, base, current, rawMode, out, j);
      OthersApart(l, i, j, k + 1);
      LaterFieldsKeep(l, size, k + 1, held, base, current, next, c);
    } else {
      OthersApart(l, i, j, k);
      PatchFieldKeeps(l[k], size, held, base, current, rawMode, out, c);
      PatchFromReads(l, size, k + 1, held, base, current, next, i, j);
    }
  }

  lemma {:induction false} OthersApart(l: Layout, i: nat, j: nat, k: nat)
    requires Separate(l) && i < |l| && j < |l[i]|
    ensures forall n :: k <= n < |l| && n != i ==> ApartFrom(l[n], l[i][j])
  {
    hide SeparateField, ApartFrom;
    forall n | k <= n < |l| && n != i
      ensures ApartFrom(l[n], l[i][j])
    {
      assert ApartFields(l[n], l[i]);
    }
  }

  /** The number in the delta says all; what is held does not matter. */
  predicate SentRaw(f: Field, size: nat, base: seq<bool>, current: seq<bool>, j: nat)
    requires FitsField(f, size, base, current) && j < |f|
  {
    Dirty(f, size, base, current) && (f[j].raw || RawIsShorter(f, size, base, current))
  }

  /** The held payload has the base's number in this channel, if the channel depends on it. */
  predicate AgreesOn(f: Field, size: nat, held: seq<bool>, base: seq<bool>, current: seq<bool>, j: nat)
    requires FitsField(f, size, base, current) && |held| >= size && j < |f|
  {
    assert LegalChannel(f[j], size);
    SentRaw(f, size, base, current, j) || Read(held, f[j]) == Read(base, f[j])
  }

  predicate AgreesField(f: Field, size: nat, held: seq<bool>, base: seq<bool>, current: seq<bool>)
    requires FitsField(f, size, base, current) && |held| >= size
  {
    forall j :: 0 <= j < |f| ==> AgreesOn(f, size, held, base, current, j)
  }

  /** In every channel that is not sent raw, the held payload is like the base. */
  predicate Agrees(l: Layout, size: nat, held: seq<bool>, base: seq<bool>, current: seq<bool>)
    requires Fits(l, size, base, current) && |held| >= size
  {
    forall k :: 0 <= k < |l| ==> assert LegalField(l[k], size); AgreesField(l[k], size, held, base, current)
  }

  /** Adding the difference restores the value on no other number. */
  lemma {:induction false} DifferenceNeedsBase(held: nat, base: nat, value: nat, width: nat)
    requires 0 < width <= 24 && held < Pow2(width) && base < Pow2(width) && value < Pow2(width)
    ensures (held + WrapSigned(value - base, width)) % Pow2(width) == value <==> held == base
  {
    var p, d := Pow2(width), WrapSigned(value - base, width);
    DifferenceRestores(base, value, width);
    ModNear(base + d, p);
    ModNear(held + d, p);
  }

  lemma {:induction false} ModNear(x: int, p: nat)
    requires p > 0 && -(p as int) <= x < 2 * p
    ensures x % p == if x < 0 then x + p else if x < p then x else x - p
  {
    ModIs(x, p, if x < 0 then x + p else if x < p then x else x - p);
  }

  /** A channel comes out right exactly if it was sent raw or the held payload has the base's number. */
  lemma {:induction false} PatchedIsCurrent(f: Field, size: nat, held: seq<bool>, base: seq<bool>, current: seq<bool>, j: nat)
    requires FitsField(f, size, base, current) && |held| >= size && j < |f| && LegalChannel(f[j], size)
    ensures PatchedNumber(f, size, held, base, current, j) == Read(current, f[j]) <==> AgreesOn(f, size, held, base, current, j)
  {
    hide Read, RawIsShorter, Pow2, WrapSigned;
    var c := f[j];
    if !Dirty(f, size, base, current) {
      assert !Differ(base, current, c);
    } else {
      hide Dirty;
      if !c.raw && !RawIsShorter(f, size, base, current) {
        ReadIsSmall(held, c);
        ReadIsSmall(base, c);
        ReadIsSmall(current, c);
        DifferenceNeedsBase(Read(held, c), Read(base, c), Read(current, c), c.width);
      }
    }
  }

  lemma {:induction false} ReadIsSmall(bits: seq<bool>, c: Channel)
    requires c.offset + c.width <= |bits|
    ensures Read(bits, c) < Pow2(c.width)
  {
  }
  /** A payload is right exactly if every channel is, since the channels cover it. */
  lemma {:induction false} SameChannelsSamePayload(l: Layout, size: nat, out: seq<bool>, current: seq<bool>)
    requires LegalLayout(l, size) && Covers(l, size) && |out| == size <= |current|
    requires forall k, j :: 0 <= k < |l| && 0 <= j < |l[k]| ==> LegalChannel(l[k][j], size) && Read(out, l[k][j]) == Read(current, l[k][j])
    ensures out == current[..size]
  {
    hide Read;
    forall b | 0 <= b < size
      ensures out[b] == current[b]
    {
      assert InLayout(l, b);
      var k :| 0 <= k < |l| && InField(l[k], b);
      var j :| 0 <= j < |l[k]| && InChannel(l[k][j], b);
      SameNumberSameBit(l[k][j], size, out, current, b);
    }
  }

  lemma {:induction false} ReadPrefix(bits: seq<bool>, size: nat, c: Channel)
    requires size <= |bits| && c.offset + c.width <= size
    ensures Read(bits[..size], c) == Read(bits, c)
  {
    assert bits[..size][c.offset..c.offset + c.width] == bits[c.offset..c.offset + c.width];
  }

  /** One channel of the patched payload. */
  lemma {:induction false} ChannelIsRight(l: Layout, size: nat, held: seq<bool>, base: seq<bool>, current: seq<bool>, k: nat, j: nat)
    requires Fits(l, size, base, current) && |held| >= size && Separate(l) && k < |l| && j < |l[k]|
    ensures FitsField(l[k], size, base, current) && LegalChannel(l[k][j], size)
    ensures Read(PatchFrom(l, size, 0, held, base, current, held[..size]), l[k][j]) == Read(current, l[k][j])
            <==> AgreesOn(l[k], size, held, base, current, j)
  {
    assert LegalField(l[k], size) && LegalChannel(l[k][j], size);
    hide Read, PatchFrom, PatchedNumber, Separate, AgreesOn;
    ReadPrefix(held, size, l[k][j]);
    PatchFromReads(l, size, 0, held, base, current, held[..size], k, j);
    PatchedIsCurrent(l[k], size, held, base, current, j);
  }

  lemma {:induction false} PatchIsRight(l: Layout, size: nat, held: seq<bool>, base: seq<bool>, current: seq<bool>)
    requires Fits(l, size, base, current) && |held| >= size && Covers(l, size) && Separate(l)
    ensures PatchFrom(l, size, 0, held, base, current, held[..size]) == current[..size] <==> Agrees(l, size, held, base, current)
  {
    var out := PatchFrom(l, size, 0, held, base, current, held[..size]);
    hide Read, PatchFrom, Covers, AgreesOn, LegalChannel;
    forall k, j | 0 <= k < |l| && 0 <= j < |l[k]|
      ensures LegalField(l[k], size) && LegalChannel(l[k][j], size)
      ensures Read(out, l[k][j]) == Read(current, l[k][j]) <==> AgreesOn(l[k], size, held, base, current, j)
      ensures out == current[..size] ==> Read(out, l[k][j]) == Read(current, l[k][j])
    {
      ChannelIsRight(l, size, held, base, current, k, j);
      ChannelFits(l[k][j], size);
      ReadPrefix(current, size, l[k][j]);
    }
    if Agrees(l, size, held, base, current) {
      forall k, j | 0 <= k < |l| && 0 <= j < |l[k]|
        ensures LegalChannel(l[k][j], size) && Read(out, l[k][j]) == Read(current, l[k][j])
      {
        assert AgreesField(l[k], size, held, base, current);
      }
      SameChannelsSamePayload(l, size, out, current);
    }
  }

  lemma {:induction false} ChannelFits(c: Channel, size: nat)
    requires LegalChannel(c, size)
    ensures c.offset + c.width <= size
  {
  }

  /**
   * A delta applied to a payload other than the one it was built from is taken without complaint.
   * It gives the current payload if and only if the two agree in every channel that was not sent
   * raw.
   */
  lemma {:induction false} RightOnlyOnAgreeingBase(l: Layout, size: nat, held: seq<bool>, base: seq<bool>, current: seq<bool>, trailing: seq<bool>)
    requires Fits(l, size, base, current) && |held| >= size && Covers(l, size) && Separate(l)
    ensures var r := Apply(l, size, held, Build(l, size, base, current) + trailing);
            && r.Some? && |r.value.0| == size && r.value.1 == |Build(l, size, base, current)| / 8
            && (r.value.0 == current[..size] <==> Agrees(l, size, held, base, current))
  {
    hide Build, Apply, PatchFrom, Agrees;
    AppliesBuilt(l, size, held, base, current, trailing);
    PatchIsRight(l, size, held, base, current);
  }

  /** A delta between equal payloads patches nothing. */
  lemma {:induction false} SamePatchesNothing(l: Layout, size: nat, k: nat, held: seq<bool>, bits: seq<bool>, out: seq<bool>)
    requires Fits(l, size, bits, bits) && |held| >= size && k <= |l| && |out| == size
    ensures PatchFrom(l, size, k, held, bits, bits, out) == out
    decreases |l| - k
  {
    hide PatchField, RawIsShorter, Read;
    if k < |l| {
      assert LegalField(l[k], size) && !Dirty(l[k], size, bits, bits);
      SamePatchesNothing(l, size, k + 1, held, bits, out);
    }
  }

  /** Equal payloads need no body: the source's early return of an all-zero mask agrees. */
  lemma {:induction false} SameHasNoBody(l: Layout, size: nat, bits: seq<bool>)
    requires Fits(l, size, bits, bits)
    ensures Body(l, size, bits, bits) == [] && Mask(l, size, bits, bits) == Zeros(|l|)
    decreases |l|
  {
    if l != [] {
      assert LegalField(l[0], size) && !Dirty(l[0], size, bits, bits);
      SameHasNoBody(l[1..], size, bits);
      forall k | 0 <= k < |l|
        ensures !Mask(l, size, bits, bits)[k]
      {
        assert LegalField(l[k], size) && !Dirty(l[k], size, bits, bits);
      }
    }
  }

  // ---- How long a delta gets ----

  function RawBitsOf(l: Layout): nat { if l == [] then 0 else RawBits(l[0]) + RawBitsOf(l[1..]) }

  /** The two counts the builder compares are the lengths of the two codings. */
  lemma {:induction false} CodeLength(f: Field, size: nat, base: seq<bool>, current: seq<bool>, rawMode: bool)
    requires FitsField(f, size, base, current)
    ensures |ChannelCodes(f, size, base, current, rawMode)| == if rawMode then RawBits(f) else ResidualBits(f, size, base, current)
    decreases |f|
  {
    hide Read, WrapSigned;
    if f != [] {
      assert LegalChannel(f[0], size);
      CodeLength(f[1..], size, base, current, rawMode);
    }
  }

  /** One mode bit per field is all that coding can ever add to the payload. */
  lemma {:induction false} BodyIsBounded(l: Layout, size: nat, base: seq<bool>, current: seq<bool>)
    requires Fits(l, size, base, current)
    ensures |Body(l, size, base, current)| <= |l| + RawBitsOf(l)
    decreases |l|
  {
    hide ChannelCodes, RawBits, ResidualBits, Dirty;
    if l != [] {
      assert LegalField(l[0], size);
      BodyIsBounded(l[1..], size, base, current);
      CodeLength(l[0], size, base, current, true);
      CodeLength(l[0], size, base, current, false);
    }
  }
}
