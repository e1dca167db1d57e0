/**
 * Wrapping sequence numbers of the reliable channel.
 *
 * Packets are numbered 0, 1, 2, ... without bound; the wire carries a number modulo
 * MAX_SEQUENCE. The lemmas say exactly how much of the unbounded order the modular
 * comparison recovers.
 */
module Sequences {

  const WINDOW := 128
  const MAX_SEQUENCE := 32768
  const HALF := MAX_SEQUENCE / 2

  /** A slot index or a sequence on the wire. */
  predicate IsSequence(s: int) { 0 <= s < MAX_SEQUENCE }

  /** C# remainder: truncated toward zero, so it can be negative. */
  function TruncatedRemainder(x: int, m: int): int
    requires m > 0
  {
    if x >= 0 then x % m else -((-x) % m)
  }

  /** NetUtils.RelativeSequenceNumber. */
  function Relative(number: int, expected: int): int {
    TruncatedRemainder(number - expected + MAX_SEQUENCE + HALF, MAX_SEQUENCE) - HALF
  }

  /** relative_sequence of the Rust transport, written with comparisons instead of a remainder. */
  function RelativeRust(number: int, expected: int): int {
    var diff := number - expected;
    if diff <= -HALF then diff + MAX_SEQUENCE
    else if diff >= HALF then diff - MAX_SEQUENCE
    else diff
  }

  function Next(s: int): int
    requires IsSequence(s)
  {
    (s + 1) % MAX_SEQUENCE
  }

  /** How many times Next takes `from` to `to`. */
  function Distance(from: int, to: int): nat
    requires IsSequence(from) && IsSequence(to)
  {
    if from <= to then to - from else to - from + MAX_SEQUENCE
  }

  function Wire(n: nat): nat { n % MAX_SEQUENCE }

  function Slot(n: nat): nat { n % WINDOW }

  lemma {:induction false} DistanceStep(from: int, to: int)
    requires IsSequence(from) && IsSequence(to) && from != to
    ensures Distance(Next(from), to) == Distance(from, to) - 1
  {
  }

  /** Wrapping and then taking a slot is taking the slot: 128 divides 32768. */
  lemma {:induction false} SlotOfWire(n: nat)
    ensures Wire(n) % WINDOW == Slot(n)
  {
  }

  lemma {:induction false} RemainderShift(x: int, k: int, m: int)
    requires m > 0
    ensures (x + k * m) % m == x % m
  {
    var y := x + k * m;
    assert y == (x / m + k) * m + x % m;
    RemainderUnique(y, x / m + k, x % m, m);
  }

  lemma {:induction false} RemainderUnique(y: int, q: int, r: int, m: int)
    requires m > 0 && 0 <= r < m && y == q * m + r
    ensures y % m == r
  {
    var d := y / m - q;
    assert d * m == r - y % m;
    assert d >= 1 ==> d * m >= m;
    assert d <= -1 ==> d * m <= -m;
  }

  lemma {:induction false} WireStep(n: nat)
    ensures Wire(n + 1) == Next(Wire(n))
  {
  }

  /** Two numbers with the same wire sequence are equal or at least MAX_SEQUENCE apart. */
  lemma {:induction false} WireInjective(a: nat, b: nat)
    requires Wire(a) == Wire(b)
    requires -MAX_SEQUENCE < a - b < MAX_SEQUENCE
    ensures a == b
  {
  }

  /** Two numbers less than a window apart never share a slot. */
  lemma {:induction false} SlotInjective(a: nat, b: nat)
    requires Slot(a) == Slot(b)
    requires -WINDOW < a - b < WINDOW
    ensures a == b
  {
  }

  lemma {:induction false} WireDistance(a: nat, b: nat)
    requires a <= b < a + MAX_SEQUENCE
    ensures Distance(Wire(a), Wire(b)) == b - a
  {
  }

  /** Within half the sequence space the modular comparison is the true difference. */
  lemma {:induction false} RelativeIsDifference(a: nat, b: nat)
    requires -HALF <= a - b < HALF
    ensures Relative(Wire(a), Wire(b)) == a - b
  {
  }

  /** Beyond it, a number up to a whole sequence space behind reads as a number ahead. */
  lemma {:induction false} RelativeOfLate(a: nat, b: nat)
    requires HALF < b - a < MAX_SEQUENCE
    ensures Relative(Wire(a), Wire(b)) == a + MAX_SEQUENCE - b
  {
  }

  lemma {:induction false} WireShift(a: nat)
    ensures Wire(a + MAX_SEQUENCE) == Wire(a)
  {
  }

  /**
   * The C# and the Rust comparison agree on every pair of sequences except those exactly half
   * the space apart downward, where C# answers -16384 and Rust +16384.
   */
  lemma {:induction false} RelativesAgree(number: int, expected: int)
    requires IsSequence(number) && IsSequence(expected)
    ensures Relative(number, expected) == RelativeRust(number, expected) <==> number - expected != -HALF
    ensures number - expected == -HALF ==>
              Relative(number, expected) == -HALF && RelativeRust(number, expected) == HALF
  {
  }

  /** The disagreement is invisible to every window test: both answers are rejected. */
  lemma {:induction false} RelativesGiveSameVerdicts(number: int, expected: int, width: int)
    requires IsSequence(number) && IsSequence(expected)
    requires 0 <= width <= HALF
    ensures 0 <= Relative(number, expected) < width <==> 0 <= RelativeRust(number, expected) < width
  {
  }
}
