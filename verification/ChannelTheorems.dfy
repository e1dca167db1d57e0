/**
 * What every run of a reliable channel guarantees, whichever sender is at one end: in-order
 * exactly-once delivery, acknowledgements that never lie, and no packet left stranded.
 */
module ChannelTheorems {
  import opened Sequences
  import opened Packets
  import P = Protocol
  import S = WindowSender
  import Q = QueueSender
  import R = WindowReceiver
  import SR = WindowSenderRefinement
  import QR = QueueSenderRefinement
  import RR = WindowReceiverRefinement
  import opened ChannelSystem

  function Offered(actions: seq<Action>): seq<Body> {
    if actions == [] then []
    else (if actions[0].Offer? then [actions[0].body] else []) + Offered(actions[1..])
  }

  function Bodies(packets: seq<Packet>): (r: seq<Body>)
    ensures |r| == |packets| && forall k :: 0 <= k < |r| ==> r[k] == packets[k].body
  {
    seq(|packets|, k requires 0 <= k < |packets| => packets[k].body)
  }

  ghost function Run(tx: Tx, ordered: bool, actions: seq<Action>): Channel
    requires tx == WINDOW_SENDER || tx == QUEUE_SENDER
  {
    InitialIsSound(tx, ordered);
    Execute(Initial(tx, ordered), actions)
  }

  lemma {:induction false} StepLogs(y: Channel, action: Action)
    ensures Step(y, action).ideal.log == y.ideal.log + if action.Offer? then [action.body] else []
    ensures Step(y, action).rx.ordered == y.rx.ordered
  {
    if action.HearData? && action.data in y.data && DataInTime(y.ideal, action.data) {
      RR.ReceiveRefines(y.rx, y.ideal, action.data.number);
    }
  }

  lemma {:induction false} ExecuteLogs(y: Channel, actions: seq<Action>)
    ensures Execute(y, actions).ideal.log == y.ideal.log + Offered(actions)
    ensures Execute(y, actions).rx.ordered == y.rx.ordered
    decreases |actions|
  {
    hide Step, Sound;
    if actions != [] {
      StepKeepsSound(y, actions[0]);
      StepLogs(y, actions[0]);
      ExecuteLogs(Step(y, actions[0]), actions[1..]);
      var first := if actions[0].Offer? then [actions[0].body] else [];
      assert y.ideal.log + (first + Offered(actions[1..])) == (y.ideal.log + first) + Offered(actions[1..]);
    } else {
      assert y.ideal.log + [] == y.ideal.log;
    }
  }

  /**
   * Ordered mode: in every run with loss, duplication, reordering and wraparound, what the
   * application has received is a prefix of what was offered: in order, exactly once, nothing
   * invented.
   */
  lemma {:induction false} OrderedDelivery(tx: Tx, actions: seq<Action>)
    requires tx == WINDOW_SENDER || tx == QUEUE_SENDER
    ensures Bodies(Run(tx, true, actions).rx.delivered) <= Offered(actions)
  {
    InitialIsSound(tx, true);
    ExecuteLogs(Initial(tx, true), actions);
    var y := Run(tx, true, actions);
    assert y.ideal.log == Offered(actions);
    assert y.ideal.order == P.UpTo(0, y.ideal.expected);
    assert Bodies(y.rx.delivered) == y.ideal.log[..y.ideal.expected] by {
      P.OutstandingIsWelcome(y.ideal);
      assert y.ideal.expected > |y.ideal.log| ==> |y.ideal.log| in y.ideal.accepted;
    }
  }

  /** Unordered mode: each offered body is delivered at most once, in some order. */
  lemma {:induction false} UnorderedDelivery(tx: Tx, actions: seq<Action>) returns (order: seq<nat>)
    requires tx == WINDOW_SENDER || tx == QUEUE_SENDER
    ensures P.Distinct(order) && |order| == |Run(tx, false, actions).rx.delivered|
    ensures forall k :: 0 <= k < |order| ==>
              order[k] < |Offered(actions)| && Run(tx, false, actions).rx.delivered[k].body == Offered(actions)[order[k]]
  {
    InitialIsSound(tx, false);
    ExecuteLogs(Initial(tx, false), actions);
    order := Run(tx, false, actions).ideal.order;
  }

  /** The sender still holds packet number n for retransmission, in its own slot or record. */
  ghost predicate Retained(y: System, n: nat)
    requires n < |y.ideal.log|
  {
    var p := SR.PacketOf(y.ideal.log, n);
    && y.ideal.base <= n < y.ideal.next
    && match y.tx
       case Window(s) => Slot(n) < |s.pending| && s.pending[Slot(n)].packet == Some(p)
       case Queued(q) => exists r <- q.records :: r.sequence == Some(p.sequence) && r.body == p.body
  }

  /**
   * The receiver has packet number n itself: delivered as the n-th packet or held for its turn;
   * in unordered mode delivered in the place that belongs to number n alone.
   */
  ghost predicate Possessed(y: System, n: nat)
    requires n < |y.ideal.log|
  {
    var p, r, order := SR.PacketOf(y.ideal.log, n), y.rx, y.ideal.order;
    if r.ordered then
      if n < |r.delivered| then r.delivered[n] == p else Slot(n) < |r.held| && r.held[Slot(n)] == Some(p)
    else
      |order| == |r.delivered| && P.Distinct(order) && exists k :: 0 <= k < |order| && order[k] == n && r.delivered[k] == p
  }

  lemma {:induction false} UnackedIsRetained(y: Channel, n: nat)
    requires y.ideal.base <= n < y.ideal.next && n !in y.ideal.acked
    ensures Retained(y, n)
  {
    if y.tx.Queued? {
      var q := y.tx.q;
      var k := |q.records| - (|y.ideal.log| - y.ideal.next);
      var m := QR.OutstandingHasRecord(q.records[..k], y.ideal.base, y.ideal.next, y.ideal.acked, y.ideal.log, n);
      assert q.records[m] in q.records;
    }
  }

  lemma {:induction false} AcceptedIsPossessed(y: Channel, n: nat)
    requires n in y.ideal.accepted
    ensures n < |y.ideal.log| && Possessed(y, n)
  {
    var i, p := y.ideal, SR.PacketOf(y.ideal.log, n);
    P.OutstandingIsWelcome(i);
    if !y.rx.ordered {
      var k :| 0 <= k < |i.order| && i.order[k] == n;
      assert y.rx.delivered[k] == p;
    } else {
      assert |y.rx.delivered| == i.expected;
      assert n < i.expected ==> i.order[n] == n;
    }
  }

  /**
   * Acknowledgement soundness: although acknowledgement bits repeat every 128 sequences and
   * acknowledgements may be stale or reordered, either sender still retains packet number n, or
   * that very packet is in the receiver's hands. A packet is released only in the second case.
   */
  lemma {:induction false} ReleasedOnlyIfAccepted(tx: Tx, ordered: bool, actions: seq<Action>, n: nat)
    requires tx == WINDOW_SENDER || tx == QUEUE_SENDER
    requires n < Run(tx, ordered, actions).ideal.next
    ensures var y := Run(tx, ordered, actions);
            n < |y.ideal.log| && (Retained(y, n) || Possessed(y, n))
  {
    var y := Run(tx, ordered, actions);
    if n < y.ideal.base || n in y.ideal.acked {
      AcceptedIsPossessed(y, n);
    } else {
      UnackedIsRetained(y, n);
    }
  }

  /**
   * No stranding, per packet: in every reachable state each outstanding packet passes the three
   * drop tests as the code evaluates them, at most 255 ahead of the window start.
   */
  lemma {:induction false} OutstandingPassesDropTests(tx: Tx, ordered: bool, actions: seq<Action>, n: nat)
    requires tx == WINDOW_SENDER || tx == QUEUE_SENDER
    requires var y := Run(tx, ordered, actions); y.ideal.base <= n < y.ideal.next
    ensures var r := Run(tx, ordered, actions).rx;
            && !R.Dropped(Wire(n), r.remoteWindowStart, r.remoteSequence)
            && 0 <= Relative(Wire(n), r.remoteWindowStart) <= 2 * WINDOW - 1
  {
    var i := Run(tx, ordered, actions).ideal;
    P.OutstandingIsWelcome(i);
    RR.FreshCopyDropped(i, n);
  }

  function Later(a: int, b: int): int { if a < b then b else a }

  /** A window sender's pump puts the oldest packet on the wire once its slot is due. */
  lemma {:induction false} WindowPumpsOldest(y: Channel, delay: real, after: int) returns (now: int)
    requires y.ideal.base < |y.ideal.log| && y.tx.Window?
    ensures now >= after
    ensures DataCopy(SR.PacketOf(y.ideal.log, y.ideal.base), y.ideal.base) in Step(y, Pump(now, delay)).data
  {
    var i, s := y.ideal, y.tx.s;
    AckedBelowNext(i);
    now := Later(after, s.pending[Slot(i.base)].stamp + delay.Floor + 1);
    SR.SendNextRefines(s, i, now, delay);
    StampIsNumber(i.log, i.base, P.Pump(i).next);
    var p := SR.PacketOf(i.log, i.base);
    assert p in PumpFrom(y.tx, i, now, delay).1;
  }

  /** A queue sender's resend puts the oldest packet on the wire once its record is due. */
  lemma {:induction false} QueueResendsOldest(y: Channel, after: int) returns (later: int)
    requires y.ideal.base < y.ideal.next && y.tx.Queued?
    ensures later >= after
    ensures DataCopy(SR.PacketOf(y.ideal.log, y.ideal.base), y.ideal.base) in Step(y, Resend(later)).data
  {
    var i, q := y.ideal, y.tx.q;
    QR.ResendReachesOldest(q, i, after);
    var oldest := q.records[0];
    later := if oldest.lastSent.Some? then Later(after, oldest.lastSent.value + Q.RESEND_MILLIS) else after;
    QR.ResendReachesOldest(q, i, later);
    StampIsNumber(i.log, i.base, i.next);
  }

  lemma {:induction false} PumpIsPump(y: Channel, now: int, delay: real, later: int)
    ensures Sound(Step(y, Pump(now, delay)))
    ensures var a := Step(y, Pump(now, delay));
            var z := Step(a, Resend(later));
            Sound(z) && a.ideal == z.ideal == P.Pump(y.ideal) && a.data <= z.data && a.tx.Window? == y.tx.Window?
  {
    StepKeepsSound(y, Pump(now, delay));
    StepKeepsSound(Step(y, Pump(now, delay)), Resend(later));
    hide Sound;
  }

  /** After any time there is one at which the oldest outstanding packet goes on the wire again. */
  lemma {:induction false} TransmitsOldest(y: Channel, delay: real, after: int) returns (now: int, later: int)
    requires y.ideal.base < |y.ideal.log|
    ensures after <= now <= later
    ensures Sound(Step(y, Pump(now, delay)))
    ensures var z := Step(Step(y, Pump(now, delay)), Resend(later));
            && Sound(z) && z.ideal == P.Pump(y.ideal) && z.ideal.base < z.ideal.next
            && DataCopy(SR.PacketOf(z.ideal.log, z.ideal.base), z.ideal.base) in z.data
  {
    hide Step, Sound;
    now, later := after, after;
    if y.tx.Window? {
      now := WindowPumpsOldest(y, delay, after);
      later := now;
    } else {
      PumpIsPump(y, now, delay, later);
      later := QueueResendsOldest(Step(y, Pump(now, delay)), after);
    }
    PumpIsPump(y, now, delay, later);
  }

  lemma {:induction false} OldestArrives(y: Channel, c: DataCopy)
    requires y.ideal.base < y.ideal.next
    requires c in y.data && c.number == y.ideal.base
    ensures var z := Step(y, HearData(c));
            && Sound(z) && z.ideal.base in z.ideal.accepted && z.rx.mustSendAcks
            && z.ideal.base == y.ideal.base && z.ideal.log == y.ideal.log
  {
    P.OutstandingIsWelcome(y.ideal);
    StepKeepsSound(y, HearData(c));
    RR.ReceiveRefines(y.rx, y.ideal, c.number);
    hide R.Receive, P.HearData, RR.Represents, Represents;
    OldestIsAccepted(y.ideal, y.rx.ordered);
  }

  lemma {:induction false} OldestIsAccepted(i: P.Ideal, ordered: bool)
    requires P.SenderSound(i) && P.ReceiverSound(i) && i.base < i.next
    ensures var j := P.HearData(i, i.base, ordered); i.base in j.accepted && j.base == i.base && j.log == i.log
  {
    P.OutstandingIsWelcome(i);
  }

  lemma {:induction false} AckComesBack(y: Channel, a: AckCopy)
    requires y.ideal.base in y.ideal.accepted
    requires a in y.acks && a.view == P.View(y.ideal.floor, y.ideal.accepted)
    ensures var z := Step(y, HearAck(a));
            Sound(z) && z.ideal.base > y.ideal.base && z.ideal.log == y.ideal.log
  {
    P.OutstandingIsWelcome(y.ideal);
    StepKeepsSound(y, HearAck(a));
  }

  /** An acknowledgement that is owed goes on the wire with what has been accepted. */
  lemma {:induction false} FlushAnswers(y: Channel)
    requires y.rx.mustSendAcks
    ensures var z := Step(y, FlushAck);
            && Sound(z) && z.ideal == y.ideal
            && AckCopy(R.Acknowledgement(y.rx), P.View(y.ideal.floor, y.ideal.accepted)) in z.acks
  {
    StepKeepsSound(y, FlushAck);
    hide R.Acknowledgement, Sound;
  }

  /** One exchange: the oldest packet arrives, its acknowledgement comes back. */
  lemma {:induction false} RoundTrip(y: Channel) returns (actions: seq<Action>)
    requires y.ideal.base < y.ideal.next
    requires DataCopy(SR.PacketOf(y.ideal.log, y.ideal.base), y.ideal.base) in y.data
    ensures |actions| == 3 && actions[0].HearData? && actions[1].FlushAck? && actions[2].HearAck?
    ensures Execute(y, actions).ideal.base > y.ideal.base
  {
    var c := DataCopy(SR.PacketOf(y.ideal.log, y.ideal.base), y.ideal.base);
    OldestArrives(y, c);
    var y1 := Step(y, HearData(c));
    var a := AckCopy(R.Acknowledgement(y1.rx), P.View(y1.ideal.floor, y1.ideal.accepted));
    FlushAnswers(y1);
    hide Step, Sound, R.Acknowledgement;
    AckComesBack(Step(y1, FlushAck), a);
    actions := [HearData(c), FlushAck, HearAck(a)];
    ExecuteThree(y, actions[0], actions[1], actions[2]);
  }

  lemma {:induction false} ExecuteThree(y: Channel, a: Action, b: Action, c: Action)
    requires Sound(Step(y, a)) && Sound(Step(Step(y, a), b))
    ensures Execute(y, [a, b, c]) == Step(Step(Step(y, a), b), c)
  {
    assert [a, b, c][1..] == [b, c] && [b, c][1..] == [c];
    StepKeepsSound(Step(Step(y, a), b), c);
    assert Execute(Step(Step(y, a), b), [c]) == Step(Step(Step(y, a), b), c);
  }

  lemma {:induction false} ExecuteConcat(y: Channel, a: seq<Action>, b: seq<Action>)
    ensures Execute(y, a + b) == Execute(Execute(y, a), b)
    decreases |a|
  {
    if a == [] {
      assert a + b == b;
    } else {
      assert (a + b)[1..] == a[1..] + b;
      StepKeepsSound(y, a[0]);
      ExecuteConcat(Step(y, a[0]), a[1..], b);
    }
  }

  /** The clock reading of an action, or the one before it if it reads none. */
  function TimeOf(a: Action, before: int): int { if a.Pump? || a.Resend? then a.now else before }

  /** The last clock reading, after these actions. */
  function TimeAfter(actions: seq<Action>, before: int): int
    decreases |actions|
  {
    if actions == [] then before else TimeAfter(actions[1..], TimeOf(actions[0], before))
  }

  /** Every clock reading is at least `after`, and none is earlier than the one before it. */
  predicate Chronological(actions: seq<Action>, after: int)
    decreases |actions|
  {
    actions != [] ==> after <= TimeOf(actions[0], after) && Chronological(actions[1..], TimeOf(actions[0], after))
  }

  lemma {:induction false} ChronologicalConcat(a: seq<Action>, b: seq<Action>, after: int)
    requires Chronological(a, after) && Chronological(b, TimeAfter(a, after))
    ensures Chronological(a + b, after) && TimeAfter(a + b, after) == TimeAfter(b, TimeAfter(a, after))
    decreases |a|
  {
    if a == [] {
      assert a + b == b;
    } else {
      assert (a + b)[1..] == a[1..] + b;
      ChronologicalConcat(a[1..], b, TimeOf(a[0], after));
    }
  }

  /** Two readings, and then none. */
  lemma {:induction false} TwoReadings(actions: seq<Action>, after: int)
    requires |actions| == 5 && actions[0].Pump? && actions[1].Resend? && after <= actions[0].now <= actions[1].now
    requires actions[2].HearData? && actions[3].FlushAck? && actions[4].HearAck?
    ensures Chronological(actions, after)
  {
    var a := actions[1..];
    var b := a[1..];
    var c := b[1..];
    var d := c[1..];
    assert d[1..] == [] && Chronological(d[1..], actions[1].now);
    assert Chronological(c, actions[1].now);
    assert Chronological(a, actions[0].now);
  }

  /** The next packet in turn can always be brought home. */
  lemma {:induction false} CanAdvance(y: Channel, delay: real, after: int) returns (actions: seq<Action>)
    requires y.ideal.base < |y.ideal.log|
    ensures Chronological(actions, after)
    ensures Offered(actions) == [] && Execute(y, actions).ideal.base > y.ideal.base
  {
    hide Step, Sound;
    var now, later := TransmitsOldest(y, delay, after);
    var a, b := Pump(now, delay), Resend(later);
    var exchange := RoundTrip(Step(Step(y, a), b));
    actions := [a, b] + exchange;
    assert Execute(y, actions) == Execute(Step(Step(y, a), b), exchange) by {
      ExecuteTwo(y, a, b);
      ExecuteConcat(y, [a, b], exchange);
    }
    NothingOffered(actions);
    TwoReadings(actions, after);
  }

  lemma {:induction false} ExecuteTwo(y: Channel, a: Action, b: Action)
    requires Sound(Step(y, a)) && Sound(Step(Step(y, a), b))
    ensures Execute(y, [a, b]) == Step(Step(y, a), b)
  {
    assert [a, b][1..] == [b] && [b][1..] == [];
    assert Execute(Step(y, a), [b]) == Execute(Step(Step(y, a), b), []);
  }

  lemma {:induction false} NothingOffered(actions: seq<Action>)
    requires forall a <- actions :: !a.Offer?
    ensures Offered(actions) == []
  {
    if actions != [] {
      assert actions[0] in actions;
      NothingOffered(actions[1..]);
    }
  }

  lemma {:induction false} OfferedConcat(a: seq<Action>, b: seq<Action>)
    ensures Offered(a + b) == Offered(a) + Offered(b)
  {
    if a == [] {
      assert a + b == b;
    } else {
      var first := if a[0].Offer? then [a[0].body] else [];
      assert (a + b)[1..] == a[1..] + b && (a + b)[0] == a[0];
      OfferedConcat(a[1..], b);
      assert first + (Offered(a[1..]) + Offered(b)) == (first + Offered(a[1..])) + Offered(b);
    }
  }

  /**
   * No stranding, globally: from every reachable state, even after every copy in flight has
   * been lost and whatever the resend delay, there is a continuation that offers nothing more
   * and in which everything offered is delivered and acknowledged. Its clock starts no earlier
   * than any given time and never goes backwards.
   */
  lemma {:induction false} CanAlwaysFinish(y: Channel, delay: real, after: int) returns (actions: seq<Action>)
    ensures Offered(actions) == [] && Chronological(actions, after)
    ensures var z := Execute(y, actions);
            && z.ideal.base == z.ideal.next == |y.ideal.log|
            && (forall body <- y.ideal.log :: body in Bodies(z.rx.delivered))
            && (y.rx.ordered ==> Bodies(z.rx.delivered) == y.ideal.log)
    decreases |y.ideal.log| - y.ideal.base
  {
    if y.ideal.base == |y.ideal.log| {
      actions := [];
      EverythingDelivered(y);
    } else {
      var step := CanAdvance(y, delay, after);
      ExecuteLogs(y, step);
      hide Step, Sound, Chronological;
      var rest := CanAlwaysFinish(Execute(y, step), delay, TimeAfter(step, after));
      ChronologicalConcat(step, rest, after);
      ExecuteConcat(y, step, rest);
      OfferedConcat(step, rest);
      actions := step + rest;
    }
  }

  lemma {:induction false} EverythingDelivered(y: Channel)
    requires y.ideal.base == |y.ideal.log|
    ensures y.ideal.base == y.ideal.next
    ensures forall body <- y.ideal.log :: body in Bodies(y.rx.delivered)
    ensures y.rx.ordered ==> Bodies(y.rx.delivered) == y.ideal.log
  {
    var i := y.ideal;
    P.OutstandingIsWelcome(i);
    assert i.expected > |i.log| ==> |i.log| in i.accepted;
    forall n | 0 <= n < |i.log|
      ensures i.log[n] in Bodies(y.rx.delivered)
    {
      assert n in i.accepted;
      if y.rx.ordered {
        assert Bodies(y.rx.delivered)[n] == i.log[n];
      } else {
        var k :| 0 <= k < |i.order| && i.order[k] == n;
        assert Bodies(y.rx.delivered)[k] == i.log[n];
      }
    }
  }
}
