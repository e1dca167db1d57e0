/**
 * The selective-repeat protocol on unbounded packet numbers, with no wrapping, slots or bit
 * maps: packet n carries the n-th offered body, the receiver keeps the set of numbers it has
 * accepted, and an acknowledgement reports that set.
 */
module Protocol {
  import opened Sequences
  import opened Packets

  /** What an acknowledgement said when it was emitted. */
  datatype View = View(floor: nat, accepted: set<nat>)

  datatype Ideal = Ideal(
    log: seq<Body>,       // every body offered, in order
    next: nat,            // numbers below it have been put in the window
    base: nat,            // oldest number not known to be accepted
    acked: set<nat>,      // numbers the sender knows to be accepted
    accepted: set<nat>,   // numbers the receiver has accepted
    floor: nat,           // start of the receiver's acknowledgement window
    expected: nat,        // oldest number the receiver has not accepted
    order: seq<nat>)      // numbers in the order they were delivered

  const START := Ideal([], 0, 0, {}, {}, 0, 0, [])

  /** Least number from `n` on that is not in `s`. */
  ghost function FirstGap(n: nat, s: set<nat>): (r: nat)
    ensures n <= r && r !in s
    ensures forall m :: n <= m < r ==> m in s
    decreases set x | x in s && n <= x
  {
    if n !in s then n
    else
      var here, later := set x | x in s && n <= x, set x | x in s && n + 1 <= x;
      assert n in here && n !in later && later <= here;
      FirstGap(n + 1, s)
  }

  function UpTo(from: nat, to: nat): (r: seq<nat>)
    requires from <= to
    ensures |r| == to - from
    ensures forall k :: 0 <= k < |r| ==> r[k] == from + k
  {
    seq(to - from, k requires 0 <= k => from + k)
  }

  function Offer(i: Ideal, body: Body): Ideal {
    i.(log := i.log + [body])
  }

  function Pump(i: Ideal): Ideal {
    i.(next := if i.base + WINDOW < |i.log| then i.base + WINDOW else |i.log|)
  }

  ghost function HearAck(i: Ideal, v: View): Ideal {
    if i.base < v.floor || i.base - v.floor >= WINDOW then i
    else i.(acked := i.acked + v.accepted, base := FirstGap(i.base, i.acked + v.accepted))
  }

  predicate OutOfWindow(i: Ideal, n: nat) {
    n < i.floor || n - i.floor >= WINDOW * 2 || n - i.expected > WINDOW
  }

  ghost function Accept(i: Ideal, n: nat, ordered: bool): Ideal
    requires i.expected !in i.accepted
  {
    var accepted := i.accepted + {n};
    var expected := FirstGap(i.expected, accepted);
    i.(accepted := accepted,
       expected := expected,
       order := if ordered then i.order + UpTo(i.expected, expected) else i.order + [n])
  }

  ghost function HearData(i: Ideal, n: nat, ordered: bool): Ideal
    requires i.expected !in i.accepted
  {
    if OutOfWindow(i, n) then i
    else
      var slid := if n - i.floor >= WINDOW then i.(floor := n - WINDOW + 1) else i;
      if n in i.accepted then slid else Accept(slid, n, ordered)
  }

  ghost predicate ViewSound(v: View) {
    && (forall n <- v.accepted :: n < v.floor + WINDOW)
    && (v.floor > 0 ==> v.floor + WINDOW - 1 in v.accepted)
  }

  predicate Nested(a: set<nat>, b: set<nat>) { a <= b || b <= a }

  /** Sender side: `acked` is exactly what one emitted acknowledgement reported. */
  ghost predicate SenderSound(i: Ideal) {
    && i.base <= i.next <= |i.log|
    && i.next <= i.base + WINDOW
    && i.acked <= i.accepted
    && i.base !in i.acked
    && (forall n :: 0 <= n < i.base ==> n in i.acked)
  }

  ghost predicate ReceiverSound(i: Ideal) {
    && ViewSound(View(i.floor, i.accepted))
    && (forall n <- i.accepted :: n < i.next)
    && i.expected !in i.accepted
    && (forall n :: 0 <= n < i.expected ==> n in i.accepted)
  }

  ghost predicate Distinct(order: seq<nat>) {
    forall j, k :: 0 <= j < k < |order| ==> order[j] != order[k]
  }

  /** What has been handed to the application: a counted prefix, or each accepted number once. */
  ghost predicate OrderSound(i: Ideal, ordered: bool) {
    if ordered then i.order == UpTo(0, i.expected)
    else Distinct(i.order) && forall n :: n in i.order <==> n in i.accepted
  }

  /** Acknowledgements in flight: what each reports is a stage of what the receiver accepted. */
  ghost predicate ViewsSound(i: Ideal, views: set<View>) {
    && (forall v <- views :: ViewSound(v) && v.floor <= i.floor && v.accepted <= i.accepted)
    && (forall v <- views :: Nested(v.accepted, i.acked))
    && (forall v <- views, w <- views :: Nested(v.accepted, w.accepted))
  }

  ghost predicate Sound(i: Ideal, views: set<View>, ordered: bool) {
    SenderSound(i) && ReceiverSound(i) && OrderSound(i, ordered) && ViewsSound(i, views)
  }

  /**
   * No stranding, the arithmetic of it: the receiver's window start never passes the sender's,
   * and every outstanding number passes all three drop tests, at most 255 ahead of the window.
   */
  lemma {:induction false} OutstandingIsWelcome(i: Ideal)
    requires SenderSound(i) && ReceiverSound(i)
    ensures i.floor <= i.base <= i.expected <= i.floor + WINDOW
    ensures forall n :: i.base <= n < i.next ==> !OutOfWindow(i, n) && n - i.floor <= 2 * WINDOW - 1
  {
    if i.floor > 0 {
      assert i.floor + WINDOW - 1 in i.accepted;
    }
    assert i.base > i.expected ==> i.expected in i.acked;
    assert i.expected > i.floor + WINDOW ==> i.floor + WINDOW in i.accepted;
  }

  lemma {:induction false} PumpKeepsSound(i: Ideal, views: set<View>, ordered: bool)
    requires Sound(i, views, ordered)
    ensures Sound(Pump(i), views, ordered) && i.next <= Pump(i).next
  {
  }

  lemma {:induction false} OfferKeepsSound(i: Ideal, body: Body, views: set<View>, ordered: bool)
    requires Sound(i, views, ordered)
    ensures Sound(Offer(i, body), views, ordered)
  {
  }

  /** An acknowledgement no newer than the newest one already processed changes nothing. */
  lemma {:induction false} StaleAckIsIgnored(i: Ideal, v: View)
    requires SenderSound(i) && v.accepted <= i.acked
    ensures HearAck(i, v) == i
  {
  }

  lemma {:induction false} HearAckKeepsSound(i: Ideal, v: View, views: set<View>, ordered: bool)
    requires Sound(i, views, ordered) && v in views
    ensures Sound(HearAck(i, v), views, ordered)
  {
    if v.accepted <= i.acked {
      StaleAckIsIgnored(i, v);
    } else {
      assert Nested(v.accepted, i.acked);
      var j := HearAck(i, v);
      if j != i {
        assert j.acked == v.accepted;
        forall n | 0 <= n < j.base
          ensures n in j.acked
        {
        }
        assert j.base > i.next ==> i.next in i.accepted;
      }
    }
  }

  lemma {:induction false} EmitKeepsSound(i: Ideal, views: set<View>, ordered: bool)
    requires Sound(i, views, ordered)
    ensures Sound(i, views + {View(i.floor, i.accepted)}, ordered)
  {
  }

  lemma {:induction false} FewerViewsKeepSound(i: Ideal, views: set<View>, fewer: set<View>, ordered: bool)
    requires Sound(i, views, ordered) && fewer <= views
    ensures Sound(i, fewer, ordered)
  {
  }

  lemma {:induction false} AcceptKeepsOrder(i: Ideal, n: nat, ordered: bool)
    requires ReceiverSound(i) && OrderSound(i, ordered) && n !in i.accepted
    ensures OrderSound(Accept(i, n, ordered), ordered)
  {
  }

  lemma {:induction false} HearDataKeepsSound(i: Ideal, n: nat, views: set<View>, ordered: bool)
    requires Sound(i, views, ordered) && n < i.next
    ensures Sound(HearData(i, n, ordered), views, ordered)
  {
    if !OutOfWindow(i, n) {
      var slid := if n - i.floor >= WINDOW then i.(floor := n - WINDOW + 1) else i;
      if n in i.accepted {
        assert n < i.floor + WINDOW;
        assert slid == i;
      } else {
        if slid.floor > 0 && slid.floor == i.floor {
          assert i.floor + WINDOW - 1 in i.accepted;
        }
        AcceptKeepsOrder(i, n, ordered);
        var j := Accept(slid, n, ordered);
        assert j.order == Accept(i, n, ordered).order;
        forall m | 0 <= m < j.expected
          ensures m in j.accepted
        {
        }
      }
    }
  }

  /** The window never slides over a number that was not accepted. */
  lemma {:induction false} BelowFloorIsAccepted(i: Ideal, n: nat)
    requires SenderSound(i) && ReceiverSound(i) && n < i.floor
    ensures n in i.accepted && n < i.expected
  {
  }
}
