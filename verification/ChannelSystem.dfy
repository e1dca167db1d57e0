/**
 * Both ends of a reliable channel and the network between them. The ends run the code's own
 * wrapping arithmetic; the network may lose, duplicate and reorder any copy at any time. Beside
 * them the unbounded protocol of Protocol.dfy records which packet a copy really is.
 *
 * The one assumption is a lifetime: a data copy is not delivered once the receiver's window has
 * moved more than MAX_SEQUENCE - 256 past it, nor an acknowledgement once the sender's window
 * has moved MAX_SEQUENCE past its start. Both bounds are far weaker than half the space.
 */
module ChannelSystem {
  import opened Sequences
  import opened Packets
  import P = Protocol
  import S = WindowSender
  import Q = QueueSender
  import R = WindowReceiver
  import SR = WindowSenderRefinement
  import QR = QueueSenderRefinement
  import RR = WindowReceiverRefinement

  /** The C# window sender or one channel of the Rust queue sender. */
  datatype Tx = Window(s: S.Sender) | Queued(q: Q.Queue)

  datatype DataCopy = DataCopy(packet: Packet, number: nat)

  datatype AckCopy = AckCopy(packet: AckPacket, view: P.View)

  datatype System = System(
    tx: Tx,
    rx: R.Receiver,
    data: set<DataCopy>,
    acks: set<AckCopy>,
    ideal: P.Ideal)

  datatype Action =
    | Offer(body: Body)
    | Pump(now: int, delay: real)
    | Resend(now: int)
    | FlushAck
    | HearData(data: DataCopy)
    | HearAck(ack: AckCopy)
    | LoseData(data: DataCopy)
    | LoseAck(ack: AckCopy)

  function Initial(tx: Tx, ordered: bool): System {
    System(tx, R.Fresh(ordered), {}, {}, P.START)
  }

  const WINDOW_SENDER := Window(S.Fresh())
  const QUEUE_SENDER := Queued(Q.Queue([], 0))

  ghost predicate Represents(tx: Tx, i: P.Ideal) {
    match tx
    case Window(s) => SR.Represents(s, i)
    case Queued(q) => QR.Represents(q, i)
  }

  ghost function Views(acks: set<AckCopy>): set<P.View> {
    set c <- acks :: c.view
  }

  ghost predicate Sound(y: System) {
    && P.Sound(y.ideal, Views(y.acks), y.rx.ordered)
    && Represents(y.tx, y.ideal)
    && RR.Represents(y.rx, y.ideal)
    && (forall c <- y.data :: c.number < y.ideal.next && c.packet == SR.PacketOf(y.ideal.log, c.number))
    && (forall c <- y.acks :: SR.Encodes(c.packet, c.view))
  }

  /** The number a packet sent now has: the latest one below `next` with its sequence. */
  function Stamp(p: Packet, next: nat): nat {
    var back := (next - 1 - p.sequence) % MAX_SEQUENCE;
    if back < next then next - 1 - back else 0
  }

  ghost function Sent(data: set<DataCopy>, out: seq<Packet>, next: nat): set<DataCopy> {
    data + set p <- out :: DataCopy(p, Stamp(p, next))
  }

  ghost function OfferTo(tx: Tx, body: Body): Tx {
    match tx
    case Window(s) => Window(s.(queue := s.queue + [body]))
    case Queued(q) => Queued(q.(records := q.records + [Q.Record(None, body, None)]))
  }

  ghost function PumpFrom(tx: Tx, i: P.Ideal, now: int, delay: real): (Tx, seq<Packet>)
    requires Represents(tx, i) && P.SenderSound(i) && forall n <- i.acked :: n < i.next
  {
    match tx
    case Window(s) =>
      SR.RepresentsIsValid(s, i);
      var (r, out) := S.SendNext(s, now, delay); (Window(r), out)
    case Queued(q) =>
      QR.PromoteRefines(q, i, now);
      var r := Q.Promote(q, now); (Queued(r), Q.Promoted(q.records, r.records))
  }

  ghost function AckTo(tx: Tx, i: P.Ideal, ack: AckPacket): Tx
    requires Represents(tx, i)
  {
    match tx
    case Window(s) => SR.RepresentsIsValid(s, i); Window(S.ProcessAck(s, ack))
    case Queued(q) => Queued(Q.ProcessAck(q, ack))
  }

  ghost function ResendFrom(tx: Tx, now: int): (Tx, seq<Packet>) {
    match tx
    case Window(s) => (tx, [])
    case Queued(q) => var (records, out) := Q.Resend(q.records, now); (Queued(q.(records := records)), out)
  }

  predicate DataInTime(i: P.Ideal, c: DataCopy) {
    i.floor <= c.number + MAX_SEQUENCE - 2 * WINDOW
  }

  predicate AckInTime(i: P.Ideal, c: AckCopy) {
    i.base < c.view.floor + MAX_SEQUENCE
  }

  /** A state in which both ends are where the unbounded protocol says. */
  type Channel = y: System | Sound(y) ghost witness Initial(WINDOW_SENDER, true)

  ghost function Step(y: Channel, action: Action): System {
    match action
    case Offer(body) => y.(tx := OfferTo(y.tx, body), ideal := P.Offer(y.ideal, body))
    case Pump(now, delay) =>
      var (tx, out) := PumpFrom(y.tx, y.ideal, now, delay);
      var i := P.Pump(y.ideal);
      y.(tx := tx, ideal := i, data := Sent(y.data, out, i.next))
    case Resend(now) =>
      var (tx, out) := ResendFrom(y.tx, now);
      y.(tx := tx, data := Sent(y.data, out, y.ideal.next))
    case FlushAck =>
      if !y.rx.mustSendAcks then y
      else
        var copy := AckCopy(R.Acknowledgement(y.rx), P.View(y.ideal.floor, y.ideal.accepted));
        y.(rx := y.rx.(mustSendAcks := false), acks := y.acks + {copy})
    case HearData(c) =>
      if c !in y.data || !DataInTime(y.ideal, c) then y
      else y.(rx := R.Receive(y.rx, c.packet).0, ideal := P.HearData(y.ideal, c.number, y.rx.ordered))
    case HearAck(c) =>
      if c !in y.acks || !AckInTime(y.ideal, c) then y
      else y.(tx := AckTo(y.tx, y.ideal, c.packet), ideal := P.HearAck(y.ideal, c.view))
    case LoseData(c) => y.(data := y.data - {c})
    case LoseAck(c) => y.(acks := y.acks - {c})
  }

  lemma {:induction false} StampIsNumber(log: seq<Body>, n: nat, next: nat)
    requires n < |log| && n < next <= n + MAX_SEQUENCE
    ensures Stamp(SR.PacketOf(log, n), next) == n
  {
    var k := n / MAX_SEQUENCE;
    var back := next - 1 - Wire(n);
    assert back == k * MAX_SEQUENCE + (next - 1 - n);
    RemainderUnique(back, k, next - 1 - n, MAX_SEQUENCE);
  }

  lemma {:induction false} SentIsSound(i: P.Ideal, data: set<DataCopy>, out: seq<Packet>)
    requires i.base <= i.next <= |i.log| && i.next <= i.base + WINDOW
    requires forall c <- data :: c.number < i.next && c.packet == SR.PacketOf(i.log, c.number)
    requires forall p <- out :: SR.IsOutstanding(p, i)
    ensures forall c <- Sent(data, out, i.next) :: c.number < i.next && c.packet == SR.PacketOf(i.log, c.number)
  {
    forall c <- Sent(data, out, i.next)
      ensures c.number < i.next && c.packet == SR.PacketOf(i.log, c.number)
    {
      if c !in data {
        var p :| p in out && c == DataCopy(p, Stamp(p, i.next));
        assert SR.IsOutstanding(p, i);
        var n :| i.base <= n < i.next && n < |i.log| && n !in i.acked && p == SR.PacketOf(i.log, n);
        StampIsNumber(i.log, n, i.next);
      }
    }
  }

  lemma {:induction false} AckedBelowNext(i: P.Ideal)
    requires P.SenderSound(i) && P.ReceiverSound(i)
    ensures forall n <- i.acked :: n < i.next
  {
  }

  lemma {:induction false} OfferKeepsSound(y: Channel, body: Body)
    ensures Sound(Step(y, Offer(body)))
  {
    P.OfferKeepsSound(y.ideal, body, Views(y.acks), y.rx.ordered);
    var j := P.Offer(y.ideal, body);
    match y.tx {
      case Window(s) => assert j.log[j.next..] == s.queue + [body];
      case Queued(q) => QR.OfferRefines(q, y.ideal, body);
    }
  }

  lemma {:induction false} PumpKeepsSound(y: Channel, now: int, delay: real)
    ensures Sound(Step(y, Pump(now, delay)))
  {
    var i, j := y.ideal, P.Pump(y.ideal);
    P.PumpKeepsSound(i, Views(y.acks), y.rx.ordered);
    AckedBelowNext(i);
    var (tx, out) := PumpFrom(y.tx, i, now, delay);
    match y.tx {
      case Window(s) =>
        SR.SendNextRefines(s, i, now, delay);
      case Queued(q) =>
        QR.PromoteRefines(q, i, now);
        forall p <- out
          ensures SR.IsOutstanding(p, j)
        {
          var k :| 0 <= k < |out| && out[k] == p;
          assert p == SR.PacketOf(j.log, i.next + k);
        }
    }
    SentIsSound(j, y.data, out);
  }

  lemma {:induction false} ResendKeepsSound(y: Channel, now: int)
    ensures Sound(Step(y, Resend(now)))
  {
    if y.tx.Queued? {
      QR.ResendRefines(y.tx.q, y.ideal, now);
    }
    SentIsSound(y.ideal, y.data, ResendFrom(y.tx, now).1);
  }

  lemma {:induction false} FlushAckKeepsSound(y: Channel)
    ensures Sound(Step(y, FlushAck))
  {
    if y.rx.mustSendAcks {
      P.EmitKeepsSound(y.ideal, Views(y.acks), y.rx.ordered);
      RR.AcknowledgementEncodes(y.rx, y.ideal);
      assert Views(Step(y, FlushAck).acks) == Views(y.acks) + {P.View(y.ideal.floor, y.ideal.accepted)};
    }
  }

  /** The sender's half of the state does not depend on what the receiver has. */
  lemma {:induction false} SenderIgnoresReceiver(tx: Tx, i: P.Ideal, j: P.Ideal)
    requires Represents(tx, i)
    requires j.log == i.log && j.base == i.base && j.next == i.next && j.acked == i.acked
    ensures Represents(tx, j)
  {
  }

  lemma {:induction false} HearDataKeepsSound(y: Channel, c: DataCopy)
    ensures Sound(Step(y, HearData(c)))
  {
    if c in y.data && DataInTime(y.ideal, c) {
      hide RR.Represents, Represents, SR.Encodes;
      var n, i := c.number, y.ideal;
      var j := P.HearData(i, n, y.rx.ordered);
      assert P.Sound(j, Views(y.acks), y.rx.ordered) by {
        P.HearDataKeepsSound(i, n, Views(y.acks), y.rx.ordered);
      }
      assert j.log == i.log && j.base == i.base && j.next == i.next && j.acked == i.acked;
      SenderIgnoresReceiver(y.tx, i, j);
      var r := R.Receive(y.rx, c.packet).0;
      assert RR.Represents(r, j) && r.ordered == y.rx.ordered by {
        RR.ReceiveRefines(y.rx, i, n);
      }
    }
  }

  lemma {:induction false} HearAckKeepsSound(y: Channel, c: AckCopy)
    ensures Sound(Step(y, HearAck(c)))
  {
    if c in y.acks && AckInTime(y.ideal, c) {
      assert c.view in Views(y.acks);
      P.OutstandingIsWelcome(y.ideal);
      P.HearAckKeepsSound(y.ideal, c.view, Views(y.acks), y.rx.ordered);
      match y.tx {
        case Window(s) => SR.ProcessAckRefines(s, y.ideal, c.packet, c.view);
        case Queued(q) => QR.ProcessAckRefines(q, y.ideal, c.packet, c.view);
      }
    }
  }

  lemma {:induction false} StepKeepsSound(y: Channel, action: Action)
    ensures Sound(Step(y, action))
  {
    match action {
      case Offer(body) => OfferKeepsSound(y, body);
      case Pump(now, delay) => PumpKeepsSound(y, now, delay);
      case Resend(now) => ResendKeepsSound(y, now);
      case FlushAck => FlushAckKeepsSound(y);
      case HearData(c) => HearDataKeepsSound(y, c);
      case HearAck(c) => HearAckKeepsSound(y, c);
      case LoseData(c) =>
      case LoseAck(c) => P.FewerViewsKeepSound(y.ideal, Views(y.acks), Views(y.acks - {c}), y.rx.ordered);
    }
  }

  ghost function Execute(y: Channel, actions: seq<Action>): Channel
    decreases |actions|
  {
    if actions == [] then y
    else
      StepKeepsSound(y, actions[0]);
      Execute(Step(y, actions[0]), actions[1..])
  }

  lemma {:induction false} InitialIsSound(tx: Tx, ordered: bool)
    requires tx == WINDOW_SENDER || tx == QUEUE_SENDER
    ensures Sound(Initial(tx, ordered))
  {
  }
}
