/**
 * The Rust client at the receiving end of a reliable channel: its receive window takes the place of
 * the C# receiver, its acknowledgements go back to the sender, and every packet it has not seen
 * before is dispatched at once, in the order of arrival. Whatever holds of the sender and of what
 * is accepted holds with this client too.
 */
module ClientChannel {
  import opened Sequences
  import opened Packets
  import P = Protocol
  import R = WindowReceiver
  import RR = WindowReceiverRefinement
  import SR = WindowSenderRefinement
  import W = ReceiveWindow
  import opened ChannelSystem
  import T = ChannelTheorems

  datatype Client = Client(window: W.State, dispatched: seq<DataCopy>)

  function Fresh(): Client { Client(W.State(seq(WINDOW, i => false), 0, false, false), []) }

  /** A channeled packet arrives: marked, and dispatched if it is new. */
  function Hear(c: Client, d: DataCopy): Client
    requires c.window.Valid()
  {
    var (window, isNew) := W.MarkNew(c.window, d.packet.sequence);
    Client(window, if isNew then c.dispatched + [d] else c.dispatched)
  }

  /**
   * One step with the client at the end of the channel. The acknowledgements on the wire are the
   * client's; the C# receiver in `y` is only its shadow.
   */
  ghost function ClientStep(y: Channel, c: Client, action: Action): (System, Client)
    requires c.window.Valid()
  {
    match action
    case HearData(d) =>
      if d !in y.data || !DataInTime(y.ideal, d) then (y, c) else (Step(y, action), Hear(c, d))
    case FlushAck =>
      if !c.window.dirty then (y, c)
      else
        var copy := AckCopy(W.AckOf(c.window), P.View(y.ideal.floor, y.ideal.accepted));
        (y.(rx := y.rx.(mustSendAcks := false), acks := y.acks + {copy}), c.(window := c.window.(dirty := false)))
    case _ => (Step(y, action), c)
  }

  /** The client's window is that of the shadow. */
  ghost predicate InStep(y: System, c: Client) {
    && c.window.Valid() && W.Mirrors(c.window, y.rx)
    && c.window.dirty == y.rx.mustSendAcks && (c.window.dirty ==> c.window.started)
  }

  /** The client has dispatched each accepted packet, and each of them once. */
  ghost predicate Tallies(dispatched: seq<DataCopy>, i: P.Ideal) {
    && (forall k :: 0 <= k < |dispatched| ==>
          dispatched[k].number < |i.log| && dispatched[k].packet == SR.PacketOf(i.log, dispatched[k].number))
    && (forall j, k :: 0 <= j < k < |dispatched| ==> dispatched[j].number != dispatched[k].number)
    && (forall n: nat :: n in i.accepted <==> exists k :: 0 <= k < |dispatched| && dispatched[k].number == n)
  }

  ghost predicate Attached(y: System, c: Client) { InStep(y, c) && Tallies(c.dispatched, y.ideal) }

  lemma {:induction false} TallyNew(dispatched: seq<DataCopy>, i: P.Ideal, j: P.Ideal, d: DataCopy)
    requires Tallies(dispatched, i) && d.number !in i.accepted && d.number < |i.log|
    requires d.packet == SR.PacketOf(i.log, d.number) && j.log == i.log && j.accepted == i.accepted + {d.number}
    ensures Tallies(dispatched + [d], j)
  {
    var all := dispatched + [d];
    forall n: nat
      ensures n in j.accepted <==> exists k :: 0 <= k < |all| && all[k].number == n
    {
      if n == d.number {
        assert all[|dispatched|].number == n;
      } else if n in i.accepted {
        var k :| 0 <= k < |dispatched| && dispatched[k].number == n;
        assert all[k].number == n;
      }
    }
  }

  lemma {:induction false} TallySame(dispatched: seq<DataCopy>, i: P.Ideal, j: P.Ideal)
    requires Tallies(dispatched, i) && i.log <= j.log && j.accepted == i.accepted
    ensures Tallies(dispatched, j)
  {
  }

  /** Hearing a packet adds its number to what is accepted, and nothing else. */
  lemma {:induction false} HearAccepts(i: P.Ideal, n: nat, ordered: bool)
    requires P.SenderSound(i) && P.ReceiverSound(i)
    ensures P.HearData(i, n, ordered).log == i.log
    ensures P.HearData(i, n, ordered).accepted == i.accepted || P.HearData(i, n, ordered).accepted == i.accepted + {n}
    ensures n >= i.floor && n < i.next ==> n in P.HearData(i, n, ordered).accepted
  {
    P.OutstandingIsWelcome(i);
  }

  lemma {:induction false} HearTallies(c: Client, i: P.Ideal, d: DataCopy, ordered: bool)
    requires P.SenderSound(i) && P.ReceiverSound(i) && Tallies(c.dispatched, i)
    requires d.number < i.next && d.number < |i.log| && d.packet == SR.PacketOf(i.log, d.number)
    ensures Tallies(if d.number in i.accepted then c.dispatched else c.dispatched + [d], P.HearData(i, d.number, ordered))
  {
    var n, j := d.number, P.HearData(i, d.number, ordered);
    HearAccepts(i, n, ordered);
    if n < i.floor {
      P.BelowFloorIsAccepted(i, n);
    }
    hide P.HearData, Tallies;
    if n in i.accepted {
      assert j.accepted == i.accepted;
      TallySame(c.dispatched, i, j);
    } else {
      TallyNew(c.dispatched, i, j, d);
    }
  }

  lemma {:induction false} HearKeepsAttached(y: Channel, c: Client, d: DataCopy)
    requires Attached(y, c) && d in y.data && DataInTime(y.ideal, d)
    ensures Attached(Step(y, HearData(d)), Hear(c, d))
  {
    P.OutstandingIsWelcome(y.ideal);
    W.MirrorHoldsOnChannel(c.window, y.rx, y.ideal, d.number);
    hide W.MarkNew, R.Receive, P.HearData, RR.Represents, Represents, Tallies, W.Mirrors;
    HearTallies(c, y.ideal, d, y.rx.ordered);
  }

  /** With the client in place of the C# receiver the rest of the channel cannot tell. */
  lemma {:induction false} ClientStepIsStep(y: Channel, c: Client, action: Action)
    requires Attached(y, c)
    ensures ClientStep(y, c, action).0 == Step(y, action)
    ensures Attached(Step(y, action), ClientStep(y, c, action).1)
  {
    match action
    case HearData(d) =>
      if d in y.data && DataInTime(y.ideal, d) {
        HearKeepsAttached(y, c, d);
      }
    case FlushAck => assert W.AckOf(c.window) == R.Acknowledgement(y.rx);
    case Pump(now, delay) => TallySame(c.dispatched, y.ideal, P.Pump(y.ideal));
    case Offer(body) => TallySame(c.dispatched, y.ideal, P.Offer(y.ideal, body));
    case HearAck(a) => TallySame(c.dispatched, y.ideal, P.HearAck(y.ideal, a.view));
    case _ =>
  }

  /** The channel and the client after these actions. */
  ghost function ClientExecute(y: Channel, c: Client, actions: seq<Action>): (r: (System, Client))
    requires Attached(y, c)
    ensures Attached(r.0, r.1)
    decreases |actions|
  {
    if actions == [] then (y, c)
    else
      StepKeepsSound(y, actions[0]);
      ClientStepIsStep(y, c, actions[0]);
      var (z, d) := ClientStep(y, c, actions[0]);
      ClientExecute(z, d, actions[1..])
  }

  lemma {:induction false} ClientExecutes(y: Channel, c: Client, actions: seq<Action>)
    requires Attached(y, c)
    ensures ClientExecute(y, c, actions).0 == Execute(y, actions)
    decreases |actions|
  {
    assert c.window.Valid();
    hide Step, ClientStep, Attached, Sound;
    if actions != [] {
      StepKeepsSound(y, actions[0]);
      ClientStepIsStep(y, c, actions[0]);
      var (z, d) := ClientStep(y, c, actions[0]);
      ClientExecutes(z, d, actions[1..]);
    }
  }

  lemma {:induction false} FreshIsAttached(tx: Tx, ordered: bool)
    requires tx == WINDOW_SENDER || tx == QUEUE_SENDER
    ensures Attached(Initial(tx, ordered), Fresh())
  {
  }

  ghost function ClientRun(tx: Tx, ordered: bool, actions: seq<Action>): (System, Client)
    requires tx == WINDOW_SENDER || tx == QUEUE_SENDER
  {
    InitialIsSound(tx, ordered);
    FreshIsAttached(tx, ordered);
    ClientExecute(Initial(tx, ordered), Fresh(), actions)
  }

  lemma {:induction false} ClientRuns(tx: Tx, ordered: bool, actions: seq<Action>)
    requires tx == WINDOW_SENDER || tx == QUEUE_SENDER
    ensures ClientRun(tx, ordered, actions).0 == T.Run(tx, ordered, actions)
    ensures Attached(ClientRun(tx, ordered, actions).0, ClientRun(tx, ordered, actions).1)
  {
    InitialIsSound(tx, ordered);
    FreshIsAttached(tx, ordered);
    ClientExecutes(Initial(tx, ordered), Fresh(), actions);
  }

  /**
   * In every run, over a network that loses, duplicates and reorders, the client dispatches each
   * body that was offered at most once and nothing else, in the order of arrival.
   */
  lemma {:induction false} DispatchedOnce(tx: Tx, ordered: bool, actions: seq<Action>)
    requires tx == WINDOW_SENDER || tx == QUEUE_SENDER
    ensures var dispatched, offered := ClientRun(tx, ordered, actions).1.dispatched, T.Offered(actions);
            && (forall k :: 0 <= k < |dispatched| ==>
                  dispatched[k].number < |offered| && dispatched[k].packet.body == offered[dispatched[k].number])
            && (forall j, k :: 0 <= j < k < |dispatched| ==> dispatched[j].number != dispatched[k].number)
  {
    ClientRuns(tx, ordered, actions);
    InitialIsSound(tx, ordered);
    T.ExecuteLogs(Initial(tx, ordered), actions);
    hide ClientRun, T.Run, Execute, InStep;
    assert T.Run(tx, ordered, actions).ideal.log == T.Offered(actions) by {
      RunLogs(tx, ordered, actions);
    }
  }

  lemma {:induction false} RunLogs(tx: Tx, ordered: bool, actions: seq<Action>)
    requires tx == WINDOW_SENDER || tx == QUEUE_SENDER
    ensures T.Run(tx, ordered, actions).ideal.log == T.Offered(actions)
  {
    InitialIsSound(tx, ordered);
    T.ExecuteLogs(Initial(tx, ordered), actions);
    assert [] + T.Offered(actions) == T.Offered(actions);
  }

  /** Packet number n itself is among those dispatched. */
  ghost predicate HasDispatched(c: Client, log: seq<Body>, n: nat)
    requires n < |log|
  {
    exists k :: 0 <= k < |c.dispatched| && c.dispatched[k] == DataCopy(SR.PacketOf(log, n), n)
  }

  /** Acknowledgement soundness with the client: a sender gives up a packet only once the client has dispatched it. */
  lemma {:induction false} ReleasedOnlyIfDispatched(tx: Tx, ordered: bool, actions: seq<Action>, n: nat)
    requires tx == WINDOW_SENDER || tx == QUEUE_SENDER
    requires n < ClientRun(tx, ordered, actions).0.ideal.next
    ensures var (y, c) := ClientRun(tx, ordered, actions);
            && n < |y.ideal.log|
            && (T.Retained(y, n) || HasDispatched(c, y.ideal.log, n))
  {
    ClientRuns(tx, ordered, actions);
    var (y, c) := ClientRun(tx, ordered, actions);
    hide ClientRun, InStep;
    if n < y.ideal.base || n in y.ideal.acked {
      T.AcceptedIsPossessed(y, n);
      WasDispatched(y, c, n);
    } else {
      T.UnackedIsRetained(y, n);
    }
  }

  lemma {:induction false} WasDispatched(y: Channel, c: Client, n: nat)
    requires Attached(y, c) && n in y.ideal.accepted && n < |y.ideal.log|
    ensures HasDispatched(c, y.ideal.log, n)
  {
    var k :| 0 <= k < |c.dispatched| && c.dispatched[k].number == n;
    assert c.dispatched[k] == DataCopy(SR.PacketOf(y.ideal.log, n), n);
  }

  /** No stranding with the client: from every reachable state everything offered can still be dispatched. */
  lemma {:induction false} ClientCanFinish(y: Channel, c: Client, delay: real, after: int) returns (actions: seq<Action>)
    requires Attached(y, c)
    ensures T.Offered(actions) == [] && T.Chronological(actions, after)
    ensures var (z, d) := ClientExecute(y, c, actions);
            && z.ideal.base == z.ideal.next == |y.ideal.log| && z.ideal.log == y.ideal.log
            && forall n: nat :: n < |z.ideal.log| ==> HasDispatched(d, z.ideal.log, n)
  {
    actions := T.CanAlwaysFinish(y, delay, after);
    ClientExecutes(y, c, actions);
    T.ExecuteLogs(y, actions);
    var (z, d) := ClientExecute(y, c, actions);
    assert z.ideal.log == y.ideal.log + [] == y.ideal.log;
    hide ClientExecute, Execute, InStep, Tallies;
    forall n: nat | n < |z.ideal.log|
      ensures HasDispatched(d, z.ideal.log, n)
    {
      BelowBaseIsAccepted(z, n);
      WasDispatched(z, d, n);
    }
  }

  lemma {:induction false} BelowBaseIsAccepted(y: Channel, n: nat)
    requires n < y.ideal.base
    ensures n in y.ideal.accepted
  {
    P.OutstandingIsWelcome(y.ideal);
  }
}
