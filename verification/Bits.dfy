/** Numbers as bits, least significant bit first, and bytes as bits. */
module Bits {
  import opened Packets

  function Pow2(n: nat): (r: nat)
    ensures r > 0
  {
    if n == 0 then 1 else 2 * Pow2(n - 1)
  }

  function Quotient(x: nat, d: nat): nat
    requires d > 0
  {
    x / d
  }

  function ShiftRight(x: nat, n: nat): nat { Quotient(x, Pow2(n)) }

  /** The low n bits of x. */
  function ToBits(x: nat, n: nat): (r: seq<bool>)
    ensures |r| == n
    decreases n
  {
    if n == 0 then [] else [x % 2 == 1] + ToBits(x / 2, n - 1)
  }

  function FromBits(bits: seq<bool>): (r: nat)
    ensures r < Pow2(|bits|)
  {
    if bits == [] then 0 else (if bits[0] then 1 else 0) + 2 * FromBits(bits[1..])
  }

  lemma {:induction false} ToFrom(bits: seq<bool>)
    ensures ToBits(FromBits(bits), |bits|) == bits
  {
    if bits != [] {
      var rest := FromBits(bits[1..]);
      ToFrom(bits[1..]);
      assert FromBits(bits) / 2 == rest;
      assert bits == [bits[0]] + bits[1..];
    }
  }

  lemma {:induction false} FromTo(x: nat, n: nat)
    requires x < Pow2(n)
    ensures FromBits(ToBits(x, n)) == x
    decreases n
  {
    if n > 0 {
      FromTo(x / 2, n - 1);
      assert ToBits(x, n)[1..] == ToBits(x / 2, n - 1);
    }
  }

  lemma {:induction false} PowSum(a: nat, b: nat)
    ensures Pow2(a + b) == Pow2(a) * Pow2(b)
    decreases a
  {
    if a == 0 {
      assert 1 * Pow2(b) == Pow2(b);
    } else {
      PowSum(a - 1, b);
      Regroup(Pow2(a - 1), Pow2(b));
      assert Pow2(a + b) == 2 * Pow2(a - 1 + b);
    }
  }

  lemma {:induction false} Regroup(x: nat, y: nat)
    ensures 2 * (x * y) == (2 * x) * y
  {
  }

  lemma {:induction false} HalveSum(x: nat, p: nat, y: nat)
    requires x < 2 * p
    ensures (x + 2 * p * y) % 2 == x % 2 && (x + 2 * p * y) / 2 == x / 2 + p * y && x / 2 < p
  {
    assert x + 2 * p * y == x + 2 * (p * y);
  }

  /** Bits of a number put together from a low part and a high part. */
  lemma {:induction false} JoinBits(x: nat, n: nat, y: nat, m: nat)
    requires x < Pow2(n)
    ensures ToBits(x + Pow2(n) * y, n + m) == ToBits(x, n) + ToBits(y, m)
    decreases n
  {
    if n > 0 {
      HalveSum(x, Pow2(n - 1), y);
      JoinBits(x / 2, n - 1, y, m);
    } else {
      assert x + Pow2(n) * y == y;
    }
  }

  /** Any number is its low n bits and the rest. */
  lemma {:induction false} Divide(x: nat, n: nat)
    ensures x == x % Pow2(n) + Pow2(n) * (x / Pow2(n)) && x % Pow2(n) < Pow2(n)
  {
  }

  /** The first n of many bits of x are those of its low part, the others those of its high part. */
  lemma {:induction false} CutBits(x: nat, n: nat, m: nat)
    ensures ToBits(x, n + m) == ToBits(x, n) + ToBits(ShiftRight(x, n), m)
    ensures ToBits(x, n) == ToBits(x % Pow2(n), n)
  {
    hide ToBits, Pow2;
    Divide(x, n);
    var low, high := x % Pow2(n), x / Pow2(n);
    CutAt(x, n, m, low, high);
  }

  lemma {:induction false} CutAt(x: nat, n: nat, m: nat, low: nat, high: nat)
    requires x == low + Pow2(n) * high && low < Pow2(n)
    ensures ToBits(x, n + m) == ToBits(low, n) + ToBits(high, m)
    ensures ToBits(x, n) == ToBits(low, n)
  {
    JoinBits(low, n, high, m);
    JoinBits(low, n, high, 0);
    assert ToBits(high, 0) == [] && n + 0 == n;
    hide ToBits;
    assert ToBits(low, n) + [] == ToBits(low, n);
  }

  /** Reading n bits back gives the number modulo two to the n. */
  lemma {:induction false} LowBits(x: nat, n: nat)
    ensures FromBits(ToBits(x, n)) == x % Pow2(n)
  {
    CutBits(x, n, 0);
    Divide(x, n);
    FromTo(x % Pow2(n), n);
  }

  function OfBytes(bytes: seq<byte>): (r: seq<bool>)
    ensures |r| == 8 * |bytes|
  {
    if bytes == [] then [] else ToBits(bytes[0], 8) + OfBytes(bytes[1..])
  }

  lemma {:induction false} Pow8()
    ensures Pow2(8) == 256
  {
  }

  function ToBytes(bits: seq<bool>): (r: seq<byte>)
    requires |bits| % 8 == 0
    ensures |r| == |bits| / 8
  {
    if bits == [] then [] else
      Pow8();
      [FromBits(bits[..8])] + ToBytes(bits[8..])
  }

  lemma {:induction false} BytesOfBits(bits: seq<bool>)
    requires |bits| % 8 == 0
    ensures OfBytes(ToBytes(bits)) == bits
  {
    if bits != [] {
      ToFrom(bits[..8]);
      BytesOfBits(bits[8..]);
      assert ToBytes(bits)[1..] == ToBytes(bits[8..]);
      assert bits == bits[..8] + bits[8..];
    }
  }

  lemma {:induction false} BitsOfBytes(bytes: seq<byte>)
    ensures ToBytes(OfBytes(bytes)) == bytes
  {
    if bytes != [] {
      Pow8();
      FromTo(bytes[0], 8);
      BitsOfBytes(bytes[1..]);
      assert OfBytes(bytes)[..8] == ToBits(bytes[0], 8) && OfBytes(bytes)[8..] == OfBytes(bytes[1..]);
    }
  }

  lemma {:induction false} OfBytesConcat(a: seq<byte>, b: seq<byte>)
    ensures OfBytes(a + b) == OfBytes(a) + OfBytes(b)
  {
    if a == [] {
      assert a + b == b;
    } else {
      assert (a + b)[1..] == a[1..] + b;
      OfBytesConcat(a[1..], b);
    }
  }
}
