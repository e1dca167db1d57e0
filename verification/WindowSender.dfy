/**
 * Sender half of the C# ReliableChannel as functions on values: the specification the
 * imperative class in ReliableChannel.dfy is proved against.
 */
module WindowSender {
  import opened Sequences
  import opened Packets

  datatype Pending = Pending(packet: Option<Packet>, stamp: int, sent: bool)

  datatype Sender = Sender(
    queue: seq<Body>,
    pending: seq<Pending>,
    localSequence: int,
    localWindowStart: int)
  {
    predicate Valid() {
      && |pending| == WINDOW
      && IsSequence(localSequence)
      && IsSequence(localWindowStart)
      && Distance(localWindowStart, localSequence) <= WINDOW
    }
  }

  const EMPTY := Pending(None, 0, false)

  function Fresh(): Sender {
    Sender([], seq(WINDOW, i => EMPTY), 0, 0)
  }

  /** PendingPacket.TrySend: the slot afterwards and what goes on the wire. */
  function TrySend(slot: Pending, now: int, delay: real): (Pending, seq<Packet>) {
    if slot.packet.None? || (slot.sent && (now - slot.stamp) as real < delay) then (slot, [])
    else (slot.(stamp := now, sent := true), [slot.packet.value])
  }

  /** The loop of ProcessAck from `at` to the newest sequence. */
  function ScanAcks(s: Sender, at: int, ackStart: int, bits: seq<bool>): (r: Sender)
    requires |s.pending| == WINDOW && IsSequence(s.localSequence) && IsSequence(s.localWindowStart)
    requires IsSequence(at)
    ensures |r.pending| == WINDOW && IsSequence(r.localWindowStart) && r.localSequence == s.localSequence
    decreases Distance(at, s.localSequence)
  {
    if at == s.localSequence || Relative(at, ackStart) >= WINDOW then s
    else
      DistanceStep(at, s.localSequence);
      var index := at % WINDOW;
      if !HasBit(bits, index) then ScanAcks(s, Next(at), ackStart, bits)
      else
        var moved := if at == s.localWindowStart then Next(at) else s.localWindowStart;
        var cleared := s.pending[index := s.pending[index].(packet := None)];
        ScanAcks(s.(localWindowStart := moved, pending := cleared), Next(at), ackStart, bits)
  }

  function ProcessAck(s: Sender, ack: AckPacket): Sender
    requires s.Valid()
  {
    if ack.size != ACK_SIZE then s
    else
      var windowRel := Relative(s.localWindowStart, ack.sequence);
      if ack.sequence >= MAX_SEQUENCE || windowRel < 0 || windowRel >= WINDOW then s
      else ScanAcks(s, s.localWindowStart, ack.sequence, ack.bits)
  }

  /** Move `count` bodies from the queue into the window, numbering them. */
  function Admit(s: Sender, count: nat): (r: Sender)
    requires |s.pending| == WINDOW && IsSequence(s.localSequence) && count <= |s.queue|
    ensures |r.pending| == WINDOW && IsSequence(r.localSequence) && r.localWindowStart == s.localWindowStart
    decreases count
  {
    if count == 0 then s
    else
      var index := s.localSequence % WINDOW;
      var slot := s.pending[index].(packet := Some(Packet(s.localSequence, s.queue[0])), sent := false);
      Admit(s.(queue := s.queue[1..], pending := s.pending[index := slot], localSequence := Next(s.localSequence)),
            count - 1)
  }

  function Admissible(s: Sender): nat
    requires s.Valid()
  {
    var capacity := WINDOW - Relative(s.localSequence, s.localWindowStart);
    if capacity <= 0 then 0 else if capacity < |s.queue| then capacity else |s.queue|
  }

  /** The send loop of SendNextPackets from `at` to the newest sequence. */
  function SendDue(s: Sender, at: int, now: int, delay: real): (r: (Sender, seq<Packet>))
    requires |s.pending| == WINDOW && IsSequence(s.localSequence) && IsSequence(at)
    ensures |r.0.pending| == WINDOW
    ensures r.0 == s.(pending := r.0.pending)
    decreases Distance(at, s.localSequence)
  {
    if at == s.localSequence then (s, [])
    else
      DistanceStep(at, s.localSequence);
      var index := at % WINDOW;
      var (slot, out) := TrySend(s.pending[index], now, delay);
      var (rest, more) := SendDue(s.(pending := s.pending[index := slot]), Next(at), now, delay);
      (rest, out + more)
  }

  /** Some slot from `at` on still holds a packet. */
  predicate AnyPending(s: Sender, at: int)
    requires |s.pending| == WINDOW && IsSequence(s.localSequence) && IsSequence(at)
    decreases Distance(at, s.localSequence)
  {
    at != s.localSequence &&
    (DistanceStep(at, s.localSequence);
     s.pending[at % WINDOW].packet.Some? || AnyPending(s, Next(at)))
  }

  lemma {:induction false} AnyPendingIgnoresTimes(s: Sender, t: Sender, at: int)
    requires |s.pending| == |t.pending| == WINDOW && IsSequence(s.localSequence) && IsSequence(at)
    requires t.localSequence == s.localSequence
    requires forall k :: 0 <= k < WINDOW ==> t.pending[k].packet == s.pending[k].packet
    ensures AnyPending(t, at) == AnyPending(s, at)
    decreases Distance(at, s.localSequence)
  {
    if at != s.localSequence {
      DistanceStep(at, s.localSequence);
      AnyPendingIgnoresTimes(s, t, Next(at));
    }
  }

  /** SendNextPackets apart from the acknowledgement it may flush first. */
  function SendNext(s: Sender, now: int, delay: real): (Sender, seq<Packet>)
    requires s.Valid()
  {
    SendDue(Admit(s, Admissible(s)), s.localWindowStart, now, delay)
  }

  // ---- What any acknowledgement and any send keep ----

  lemma {:induction false} ScanShrinks(s: Sender, at: int, ackStart: int, bits: seq<bool>)
    requires |s.pending| == WINDOW && IsSequence(s.localSequence) && IsSequence(s.localWindowStart) && IsSequence(at)
    ensures var r := ScanAcks(s, at, ackStart, bits);
            Distance(r.localWindowStart, r.localSequence) <= Distance(s.localWindowStart, s.localSequence)
    decreases Distance(at, s.localSequence)
  {
    if at != s.localSequence && Relative(at, ackStart) < WINDOW {
      DistanceStep(at, s.localSequence);
      var index := at % WINDOW;
      if HasBit(bits, index) {
        var moved := if at == s.localWindowStart then Next(at) else s.localWindowStart;
        var cleared := s.pending[index := s.pending[index].(packet := None)];
        ScanShrinks(s.(localWindowStart := moved, pending := cleared), Next(at), ackStart, bits);
      } else {
        ScanShrinks(s, Next(at), ackStart, bits);
      }
    }
  }

  /** Whatever an acknowledgement says, forged or not, it never widens the window. */
  lemma {:induction false} ProcessAckKeepsValid(s: Sender, ack: AckPacket)
    requires s.Valid()
    ensures var r := ProcessAck(s, ack);
            r.Valid() && Distance(r.localWindowStart, r.localSequence) <= Distance(s.localWindowStart, s.localSequence)
  {
    ScanShrinks(s, s.localWindowStart, ack.sequence, ack.bits);
  }

  lemma {:induction false} OneFurther(start: int, at: int)
    requires IsSequence(start) && IsSequence(at) && Distance(start, at) < WINDOW
    ensures IsSequence(Next(at)) && Distance(start, Next(at)) == Distance(start, at) + 1
  {
  }

  lemma {:induction false} AdmitWidens(s: Sender, count: nat)
    requires |s.pending| == WINDOW && IsSequence(s.localSequence) && IsSequence(s.localWindowStart) && count <= |s.queue|
    requires Distance(s.localWindowStart, s.localSequence) + count <= WINDOW
    ensures var r := Admit(s, count);
            Distance(r.localWindowStart, r.localSequence) == Distance(s.localWindowStart, s.localSequence) + count
    decreases count
  {
    if count > 0 {
      OneFurther(s.localWindowStart, s.localSequence);
      hide Distance, Next;
      var index := s.localSequence % WINDOW;
      var slot := s.pending[index].(packet := Some(Packet(s.localSequence, s.queue[0])), sent := false);
      AdmitWidens(s.(queue := s.queue[1..], pending := s.pending[index := slot], localSequence := Next(s.localSequence)), count - 1);
    }
  }

  /** At most 128 packets are ever in flight, and none is numbered that does not fit. */
  lemma {:induction false} SendNextKeepsValid(s: Sender, now: int, delay: real)
    requires s.Valid()
    ensures SendNext(s, now, delay).0.Valid()
    ensures var r := SendNext(s, now, delay).0;
            Distance(r.localWindowStart, r.localSequence) == Distance(s.localWindowStart, s.localSequence) + Admissible(s)
  {
    RoomLeft(s);
    AdmitWidens(s, Admissible(s));
  }

  lemma {:induction false} RoomLeft(s: Sender)
    requires s.Valid()
    ensures Relative(s.localSequence, s.localWindowStart) == Distance(s.localWindowStart, s.localSequence)
  {
  }
}
