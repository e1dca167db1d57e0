/**
 * The C# receiver, with its absolute 128-bit map and 128 holding slots, carries out the
 * unbounded protocol on every packet that is not too late.
 */
module WindowReceiverRefinement {
  import opened Sequences
  import opened Packets
  import opened Protocol
  import opened WindowReceiver
  import opened WindowSenderRefinement

  /** What the ordered receiver keeps in the slot of number n. */
  ghost function Kept(log: seq<Body>, accepted: set<nat>, from: nat, n: nat): Option<Packet> {
    if n in accepted && from <= n < |log| then Some(PacketOf(log, n)) else None
  }

  ghost predicate Holding(held: seq<Option<Packet>>, log: seq<Body>, accepted: set<nat>, floor: nat, from: nat) {
    |held| == WINDOW && forall n :: floor <= n < floor + WINDOW ==> held[Slot(n)] == Kept(log, accepted, from, n)
  }

  ghost predicate Flagged(early: seq<bool>, accepted: set<nat>, floor: nat, from: nat) {
    |early| == WINDOW && forall n :: floor <= n < floor + WINDOW ==> early[Slot(n)] == (n in accepted && from <= n)
  }

  ghost predicate Held(r: Receiver, log: seq<Body>, accepted: set<nat>, floor: nat, from: nat) {
    if r.ordered then Holding(r.held, log, accepted, floor, from) else Flagged(r.early, accepted, floor, from)
  }

  ghost predicate Marked(r: Receiver, accepted: set<nat>, floor: nat)
    requires r.Valid()
  {
    forall n :: floor <= n < floor + WINDOW ==> r.bits[Slot(n)] == (n in accepted)
  }

  ghost predicate Delivered(delivered: seq<Packet>, log: seq<Body>, order: seq<nat>) {
    && |delivered| == |order|
    && forall k :: 0 <= k < |order| ==> order[k] < |log| && delivered[k] == PacketOf(log, order[k])
  }

  ghost predicate Represents(r: Receiver, i: Ideal) {
    && r.Valid()
    && r.remoteWindowStart == r.ackSequence == Wire(i.floor)
    && r.remoteSequence == Wire(i.expected)
    && Marked(r, i.accepted, i.floor)
    && Held(r, i.log, i.accepted, i.floor, i.expected)
    && Delivered(r.delivered, i.log, i.order)
  }

  /**
   * Exactly which late copies slip past the three drop tests: a copy up to a whole sequence
   * space behind the window is read as the packet MAX_SEQUENCE later, and nothing else stops it.
   */
  lemma {:induction false} LateCopyAliases(n: nat, floor: nat, expected: nat)
    requires n < floor < n + MAX_SEQUENCE
    requires floor <= expected <= floor + WINDOW
    ensures !Dropped(Wire(n), Wire(floor), Wire(expected)) <==>
            n + MAX_SEQUENCE < floor + 2 * WINDOW && n + MAX_SEQUENCE <= expected + WINDOW
  {
    if floor - n <= HALF {
      RelativeIsDifference(n, floor);
    } else {
      RelativeOfLate(n, floor);
      if n + MAX_SEQUENCE < floor + 2 * WINDOW {
        WireShift(n);
        RelativeIsDifference(n + MAX_SEQUENCE, expected);
      }
    }
  }

  /** A copy that is not too late is dropped exactly when it lies below the window. */
  lemma {:induction false} FreshCopyDropped(i: Ideal, n: nat)
    requires SenderSound(i) && ReceiverSound(i) && n < i.next
    requires i.floor <= n + MAX_SEQUENCE - 2 * WINDOW
    ensures Dropped(Wire(n), Wire(i.floor), Wire(i.expected)) <==> n < i.floor
    ensures OutOfWindow(i, n) <==> n < i.floor
    ensures n >= i.floor ==> Relative(Wire(n), Wire(i.floor)) == n - i.floor < 2 * WINDOW
  {
    OutstandingIsWelcome(i);
    if n < i.floor {
      LateCopyAliases(n, i.floor, i.expected);
    } else {
      RelativeIsDifference(n, i.floor);
      RelativeIsDifference(n, i.expected);
    }
  }

  lemma {:induction false} SlideClears(r: Receiver, from: nat, end: nat)
    requires r.Valid() && from <= end <= from + WINDOW && r.remoteWindowStart == Wire(from)
    ensures var s := Slide(r, Wire(end));
            && (forall n :: from <= n < end ==> !s.bits[Slot(n)])
            && (forall n :: end <= n < from + WINDOW ==> s.bits[Slot(n)] == r.bits[Slot(n)])
    decreases end - from
  {
    WireDistance(from, end);
    if from < end {
      SlotOfWire(from);
      WireStep(from);
      var t := r.(bits := r.bits[Slot(from) := false], remoteWindowStart := Wire(from + 1));
      SlideClears(t, from + 1, end);
      SlideOnlyClears(t, Wire(end), Slot(from));
      forall n | end <= n < from + WINDOW
        ensures Slide(r, Wire(end)).bits[Slot(n)] == r.bits[Slot(n)]
      {
        if Slot(n) == Slot(from) {
          SlotInjective(n, from);
        }
      }
    }
  }

  lemma {:induction false} SlideOnlyClears(r: Receiver, start: int, k: nat)
    requires r.Valid() && IsSequence(start) && k < WINDOW && !r.bits[k]
    ensures !Slide(r, start).bits[k]
    decreases Distance(r.remoteWindowStart, start)
  {
    if r.remoteWindowStart != start {
      DistanceStep(r.remoteWindowStart, start);
      SlideOnlyClears(r.(bits := r.bits[r.remoteWindowStart % WINDOW := false],
                         remoteWindowStart := Next(r.remoteWindowStart)), start, k);
    }
  }

  /** After the slide the map describes the window from the new start. */
  lemma {:induction false} SlideMarks(r: Receiver, accepted: set<nat>, from: nat, end: nat)
    requires r.Valid() && from <= end <= from + WINDOW && r.remoteWindowStart == Wire(from)
    requires Marked(r, accepted, from) && forall n <- accepted :: n < from + WINDOW
    ensures Marked(Slide(r, Wire(end)), accepted, end)
  {
    SlideClears(r, from, end);
    var s := Slide(r, Wire(end));
    forall n | end <= n < end + WINDOW
      ensures s.bits[Slot(n)] == (n in accepted)
    {
      if n >= from + WINDOW {
        RemainderShift(n - WINDOW, 1, WINDOW);
        assert Slot(n) == Slot(n - WINDOW);
      }
    }
  }

  /** Sliding the window over delivered numbers does not disturb the holding slots. */
  lemma {:induction false} SlideHolds(r: Receiver, log: seq<Body>, accepted: set<nat>, from: nat, end: nat, expected: nat)
    requires r.Valid() && from <= end <= expected && Held(r, log, accepted, from, expected)
    requires expected <= from + WINDOW && forall n <- accepted :: n < from + WINDOW
    ensures Held(r, log, accepted, end, expected)
  {
    forall n | end <= n < end + WINDOW
      ensures r.ordered ==> r.held[Slot(n)] == Kept(log, accepted, expected, n)
      ensures !r.ordered ==> r.early[Slot(n)] == (n in accepted && expected <= n)
    {
      if n >= from + WINDOW {
        RemainderShift(n - WINDOW, 1, WINDOW);
        assert Slot(n) == Slot(n - WINDOW);
      }
    }
  }

  /** Draining delivers the held run and stops at the first gap. */
  lemma {:induction false} DrainHeldReleases(r: Receiver, log: seq<Body>, accepted: set<nat>, floor: nat, e: nat)
    requires r.Valid() && r.ordered && r.remoteSequence == Wire(e)
    requires floor <= e <= floor + WINDOW && (forall n <- accepted :: n < floor + WINDOW && n < |log|)
    requires Holding(r.held, log, accepted, floor, e) && e <= |log|
    ensures var g := FirstGap(e, accepted);
            var s := DrainHeld(r);
            && e <= g <= floor + WINDOW && g <= |log|
            && s.remoteSequence == Wire(g)
            && Holding(s.held, log, accepted, floor, g)
            && s.delivered == r.delivered + PacketsOf(log, e, g)
    decreases floor + WINDOW - e
  {
    SlotOfWire(e);
    if e == floor + WINDOW {
      RemainderShift(floor, 1, WINDOW);
      assert Slot(e) == Slot(floor);
    } else if e in accepted {
      WireStep(e);
      var next := r.(held := r.held[Slot(e) := None],
                     delivered := r.delivered + [PacketOf(log, e)],
                     remoteSequence := Next(r.remoteSequence));
      assert Holding(next.held, log, accepted, floor, e + 1) by {
        forall n | floor <= n < floor + WINDOW && Slot(n) == Slot(e)
          ensures n == e
        {
          SlotInjective(n, e);
        }
      }
      DrainHeldReleases(next, log, accepted, floor, e + 1);
      var g := FirstGap(e, accepted);
      assert [PacketOf(log, e)] + PacketsOf(log, e + 1, g) == PacketsOf(log, e, g);
    }
  }

  lemma {:induction false} DrainEarlySkips(r: Receiver, accepted: set<nat>, floor: nat, e: nat)
    requires r.Valid() && r.remoteSequence == Wire(e)
    requires floor <= e <= floor + WINDOW && (forall n <- accepted :: n < floor + WINDOW)
    requires Flagged(r.early, accepted, floor, e)
    ensures var g := FirstGap(e, accepted);
            var s := DrainEarly(r);
            && e <= g <= floor + WINDOW
            && s.remoteSequence == Wire(g)
            && Flagged(s.early, accepted, floor, g)
    decreases floor + WINDOW - e
  {
    SlotOfWire(e);
    if e == floor + WINDOW {
      RemainderShift(floor, 1, WINDOW);
      assert Slot(e) == Slot(floor);
    } else if e in accepted {
      WireStep(e);
      var next := r.(early := r.early[Slot(e) := false], remoteSequence := Next(r.remoteSequence));
      assert Flagged(next.early, accepted, floor, e + 1) by {
        forall n | floor <= n < floor + WINDOW && Slot(n) == Slot(e)
          ensures n == e
        {
          SlotInjective(n, e);
        }
      }
      DrainEarlySkips(next, accepted, floor, e + 1);
    }
  }

  /** A receiver that has set the bit of number n but not yet handed the packet on. */
  ghost predicate Taking(r: Receiver, i: Ideal, n: nat) {
    && r.Valid()
    && r.remoteWindowStart == r.ackSequence == Wire(i.floor)
    && r.remoteSequence == Wire(i.expected)
    && i.floor <= i.expected <= n < i.floor + WINDOW && n < |i.log|
    && n !in i.accepted && i.expected !in i.accepted
    && (forall m <- i.accepted :: m < i.floor + WINDOW && m < |i.log|)
    && Marked(r, i.accepted + {n}, i.floor)
    && Held(r, i.log, i.accepted, i.floor, i.expected)
    && Delivered(r.delivered, i.log, i.order)
  }

  lemma {:induction false} HoldRefines(r: Receiver, i: Ideal, n: nat)
    requires Taking(r, i, n) && n != i.expected
    ensures Represents(Take(r, PacketOf(i.log, n)), Accept(i, n, r.ordered))
  {
    if Wire(n) == Wire(i.expected) {
      WireInjective(n, i.expected);
    }
    SlotOfWire(n);
    var s := Take(r, PacketOf(i.log, n));
    forall m | i.floor <= m < i.floor + WINDOW && Slot(m) == Slot(n)
      ensures m == n
    {
      SlotInjective(m, n);
    }
    assert Held(s, i.log, i.accepted + {n}, i.floor, i.expected);
  }

  lemma {:induction false} TakeExpected(r: Receiver, packet: Packet)
    requires r.Valid() && r.ordered && packet.sequence == r.remoteSequence
    ensures Take(r, packet) == DrainHeld(r.(delivered := r.delivered + [packet], remoteSequence := Next(r.remoteSequence)))
  {
  }

  /** Taking the expected number leaves the slots right for the one after it. */
  lemma {:induction false} HoldingNext(held: seq<Option<Packet>>, log: seq<Body>, accepted: set<nat>, floor: nat, n: nat)
    requires Holding(held, log, accepted, floor, n) && floor <= n < floor + WINDOW && n !in accepted
    ensures Holding(held, log, accepted + {n}, floor, n + 1)
  {
  }

  lemma {:induction false} DeliveredRun(delivered: seq<Packet>, log: seq<Body>, order: seq<nat>, from: nat, end: nat)
    requires Delivered(delivered, log, order) && from <= end <= |log|
    ensures Delivered(delivered + PacketsOf(log, from, end), log, order + UpTo(from, end))
  {
  }

  lemma {:induction false} TakeOrderedRefines(r: Receiver, i: Ideal, n: nat)
    requires Taking(r, i, n) && n == i.expected && r.ordered
    ensures Represents(Take(r, PacketOf(i.log, n)), Accept(i, n, true))
  {
    WireStep(n);
    hide DrainHeld, Take, FirstGap, PacketsOf, UpTo, Holding, Marked, Delivered, Wire;
    var packet, accepted := PacketOf(i.log, n), i.accepted + {n};
    var first := r.(delivered := r.delivered + [packet], remoteSequence := Wire(n + 1));
    HoldingNext(r.held, i.log, i.accepted, i.floor, n);
    TakeExpected(r, packet);
    DrainHeldReleases(first, i.log, accepted, i.floor, n + 1);
    var e := FirstGap(n + 1, accepted);
    GapAfter(n, accepted);
    RunFirst(i.log, n, e);
    assert (r.delivered + [packet]) + PacketsOf(i.log, n + 1, e) == r.delivered + ([packet] + PacketsOf(i.log, n + 1, e));
    DeliveredRun(r.delivered, i.log, i.order, n, e);
    SameMarks(r, Take(r, packet), accepted, i.floor);
  }

  lemma {:induction false} SameMarks(r: Receiver, s: Receiver, accepted: set<nat>, floor: nat)
    requires r.Valid() && s.Valid() && s.bits == r.bits && Marked(r, accepted, floor)
    ensures Marked(s, accepted, floor)
  {
  }

  lemma {:induction false} GapAfter(n: nat, s: set<nat>)
    requires n in s
    ensures FirstGap(n, s) == FirstGap(n + 1, s)
  {
  }

  lemma {:induction false} RunFirst(log: seq<Body>, from: nat, end: nat)
    requires from < end <= |log|
    ensures PacketsOf(log, from, end) == [PacketOf(log, from)] + PacketsOf(log, from + 1, end)
  {
  }

  lemma {:induction false} TakeUnorderedRefines(r: Receiver, i: Ideal, n: nat)
    requires Taking(r, i, n) && n == i.expected && !r.ordered
    ensures Represents(Take(r, PacketOf(i.log, n)), Accept(i, n, false))
  {
    WireStep(n);
    var packet := PacketOf(i.log, n);
    var accepted := i.accepted + {n};
    var first := r.(delivered := r.delivered + [packet], remoteSequence := Wire(n + 1));
    DrainEarlySkips(first, accepted, i.floor, n + 1);
    assert Take(r, packet) == DrainEarly(first);
    assert Accept(i, n, false).expected == FirstGap(n + 1, accepted);
  }

  /** The window movement ProcessPacket makes before it looks at the bit of number n. */
  lemma {:induction false} SlideRefines(r: Receiver, i: Ideal, n: nat)
    requires Represents(r, i) && SenderSound(i) && ReceiverSound(i)
    requires i.floor + WINDOW <= n < i.next
    ensures var start := Wire(n - WINDOW + 1);
            Represents(Slide(r.(ackSequence := start), start), i.(floor := n - WINDOW + 1))
    ensures Wire(n - WINDOW + 1) == (r.remoteWindowStart + (n - i.floor) - WINDOW + 1) % MAX_SEQUENCE
  {
    OutstandingIsWelcome(i);
    var end := n - WINDOW + 1;
    var moved := r.(ackSequence := Wire(end));
    SlideMarks(moved, i.accepted, i.floor, end);
    var s := Slide(moved, Wire(end));
    SlideHolds(s, i.log, i.accepted, i.floor, end, i.expected);
    var k := i.floor / MAX_SEQUENCE;
    assert end == (r.remoteWindowStart + (n - i.floor) - WINDOW + 1) + k * MAX_SEQUENCE;
    RemainderShift(r.remoteWindowStart + (n - i.floor) - WINDOW + 1, k, MAX_SEQUENCE);
  }

  /** A new number inside the window: its bit is set and the packet handed on. */
  lemma {:induction false} MarkAndTakeRefines(r: Receiver, i: Ideal, n: nat)
    requires Represents(r, i) && i.next <= |i.log| && i.expected !in i.accepted
    requires forall m :: 0 <= m < i.expected ==> m in i.accepted
    requires forall m <- i.accepted :: m < i.floor + WINDOW && m < i.next
    requires i.floor <= i.expected <= i.floor + WINDOW
    requires i.floor <= n < i.floor + WINDOW && n < i.next && n !in i.accepted
    ensures Represents(Take(r.(bits := r.bits[Slot(n) := true]), PacketOf(i.log, n)), Accept(i, n, r.ordered))
  {
    var marked := r.(bits := r.bits[Slot(n) := true]);
    forall m | i.floor <= m < i.floor + WINDOW && Slot(m) == Slot(n)
      ensures m == n
    {
      SlotInjective(m, n);
    }
    assert Taking(marked, i, n);
    if n != i.expected {
      HoldRefines(marked, i, n);
    } else if r.ordered {
      TakeOrderedRefines(marked, i, n);
    } else {
      TakeUnorderedRefines(marked, i, n);
    }
  }

  /** A duplicate changes nothing but the debt of an acknowledgement. */
  lemma {:induction false} DuplicateRefines(r: Receiver, i: Ideal, n: nat)
    requires Represents(r, i) && SenderSound(i) && ReceiverSound(i)
    requires n in i.accepted && i.floor <= n
    ensures Receive(r, PacketOf(i.log, n)) == (r.(mustSendAcks := true), false)
    ensures HearData(i, n, r.ordered) == i
  {
    OutstandingIsWelcome(i);
    FreshCopyDropped(i, n);
    SlotOfWire(n);
  }

  lemma {:induction false} TakeKeepsFlags(r: Receiver, p: Packet)
    requires r.Valid() && IsSequence(p.sequence)
    ensures Take(r, p).ordered == r.ordered && Take(r, p).mustSendAcks == r.mustSendAcks
  {
  }

  /** The receiver as it is when it looks at the bit of a packet that is not dropped. */
  function Armed(r: Receiver, p: Packet): Receiver
    requires r.Valid()
  {
    var relate := Relative(p.sequence, r.remoteWindowStart);
    var start := (r.remoteWindowStart + relate - WINDOW + 1) % MAX_SEQUENCE;
    (if relate < WINDOW then r else Slide(r.(ackSequence := start), start)).(mustSendAcks := true)
  }

  lemma {:induction false} ReceiveNew(r: Receiver, p: Packet)
    requires r.Valid() && IsSequence(p.sequence) && !Dropped(p.sequence, r.remoteWindowStart, r.remoteSequence)
    requires var a := Armed(r, p); a.Valid() && !a.bits[p.sequence % WINDOW]
    ensures var a := Armed(r, p); Receive(r, p) == (Take(a.(bits := a.bits[p.sequence % WINDOW := true]), p), true)
  {
  }

  /**
   * The lifetime bound is tight: on a receiver that has everything up to its window's end, a copy
   * one number beyond the bound, accepted long ago, is taken for a new packet, and every later one
   * is dropped.
   */
  lemma {:induction false} LifetimeBoundIsTight(r: Receiver, i: Ideal, n: nat)
    requires Represents(r, i) && SenderSound(i) && ReceiverSound(i)
    requires i.floor == n + MAX_SEQUENCE - 2 * WINDOW + 1 && i.expected == i.floor + WINDOW
    ensures n in i.accepted && n < |i.log| && Receive(r, PacketOf(i.log, n)).1
    ensures forall m :: n < m < i.floor ==> m < |i.log| && Receive(r, PacketOf(i.log, m)) == (r, false)
  {
    assert n in i.accepted;
    LateCopyAliases(n, i.floor, i.expected);
    RelativeOfLate(n, i.floor);
    LateStart(i.floor, r.remoteWindowStart);
    var start, slid := Wire(i.floor + WINDOW), r.(ackSequence := Wire(i.floor + WINDOW));
    SlideClears(slid, i.floor, i.floor + WINDOW);
    LateSlot(n, i.floor);
    ReceiveNew(r, PacketOf(i.log, n));
    forall m | n < m < i.floor
      ensures m < |i.log| && Receive(r, PacketOf(i.log, m)) == (r, false)
    {
      assert m in i.accepted;
      LateCopyAliases(m, i.floor, i.expected);
    }
  }

  lemma {:induction false} LateStart(floor: nat, start: int)
    requires start == Wire(floor)
    ensures (start + (2 * WINDOW - 1) - WINDOW + 1) % MAX_SEQUENCE == Wire(floor + WINDOW)
  {
    RemainderShift(start + WINDOW, floor / MAX_SEQUENCE, MAX_SEQUENCE);
  }

  /** The late copy reads as the number 255 past the window start, whose slot lies in the window left behind. */
  lemma {:induction false} LateSlot(n: nat, floor: nat)
    requires floor == n + MAX_SEQUENCE - 2 * WINDOW + 1
    ensures Wire(n) % WINDOW == Slot(floor + WINDOW - 1)
  {
    SlotOfWire(n);
  }

  lemma {:induction false} BitTells(r: Receiver, i: Ideal, n: nat)
    requires Represents(r, i) && i.floor <= n < i.floor + WINDOW
    ensures r.bits[Slot(n)] == (n in i.accepted) && Represents(r.(mustSendAcks := true), i)
  {
  }

  lemma {:induction false} AcceptanceRefines(r: Receiver, i: Ideal, n: nat)
    requires Represents(r, i) && SenderSound(i) && ReceiverSound(i)
    requires n !in i.accepted && i.floor <= n < i.next
    ensures var (s, isNew) := Receive(r, PacketOf(i.log, n));
            && Represents(s, HearData(i, n, r.ordered)) && s.ordered == r.ordered
            && isNew && s.mustSendAcks
  {
    OutstandingIsWelcome(i);
    FreshCopyDropped(i, n);
    SlotOfWire(n);
    hide Marked, Held, Delivered, Take, Slide, Accept, Receive, Dropped, SenderSound, ReceiverSound;
    var p := PacketOf(i.log, n);
    var a := Armed(r, p);
    var j := if n - i.floor >= WINDOW then i.(floor := n - WINDOW + 1) else i;
    if n - i.floor >= WINDOW {
      SlideRefines(r, i, n);
      BitTells(Slide(r.(ackSequence := Wire(j.floor)), Wire(j.floor)), j, n);
    } else {
      BitTells(r, i, n);
    }
    ReceiveNew(r, p);
    TakeKeepsFlags(a.(bits := a.bits[Slot(n) := true]), p);
    MarkAndTakeRefines(a, j, n);
  }

  /**
   * ProcessPacket is HearData for every copy within the lifetime bound; it reports "new" for
   * exactly the numbers not accepted before, and owes an acknowledgement for every number it
   * does not drop.
   */
  lemma {:induction false} ReceiveRefines(r: Receiver, i: Ideal, n: nat)
    requires Represents(r, i) && SenderSound(i) && ReceiverSound(i)
    requires n < i.next && i.floor <= n + MAX_SEQUENCE - 2 * WINDOW
    ensures var (s, isNew) := Receive(r, PacketOf(i.log, n));
            && Represents(s, HearData(i, n, r.ordered)) && s.ordered == r.ordered
            && (isNew <==> n !in i.accepted)
            && (n >= i.floor ==> s.mustSendAcks)
  {
    FreshCopyDropped(i, n);
    if n < i.floor {
      BelowFloorIsAccepted(i, n);
    } else if n in i.accepted {
      DuplicateRefines(r, i, n);
    } else {
      AcceptanceRefines(r, i, n);
    }
  }

  /** What the channel sends as its acknowledgement encodes the receiver's current view. */
  lemma {:induction false} AcknowledgementEncodes(r: Receiver, i: Ideal)
    requires Represents(r, i)
    ensures Encodes(Acknowledgement(r), View(i.floor, i.accepted))
  {
  }
}
