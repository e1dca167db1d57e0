/**
 * Receiver half of the C# ReliableChannel as functions on values, for both delivery modes.
 */
module WindowReceiver {
  import opened Sequences
  import opened Packets

  datatype Receiver = Receiver(
    ordered: bool,
    bits: seq<bool>,
    held: seq<Option<Packet>>,
    early: seq<bool>,
    remoteSequence: int,
    remoteWindowStart: int,
    ackSequence: nat,
    mustSendAcks: bool,
    delivered: seq<Packet>)
  {
    predicate Valid() {
      && |bits| == WINDOW
      && |held| == WINDOW
      && |early| == WINDOW
      && IsSequence(remoteSequence)
      && IsSequence(remoteWindowStart)
    }
  }

  function Fresh(ordered: bool): Receiver {
    Receiver(ordered, seq(WINDOW, i => false), seq(WINDOW, i => None), seq(WINDOW, i => false), 0, 0, 0, false, [])
  }

  /** The three drop tests of ProcessPacket. */
  predicate Dropped(sequence: int, windowStart: int, expected: int) {
    var relate := Relative(sequence, windowStart);
    Relative(sequence, expected) > WINDOW || relate < 0 || relate >= WINDOW * 2
  }

  /** Slide the acknowledgement window up to `start`, clearing the bits that leave it. */
  function Slide(r: Receiver, start: int): (s: Receiver)
    requires r.Valid() && IsSequence(start)
    ensures s.Valid()
    ensures s == r.(bits := s.bits, remoteWindowStart := start)
    decreases Distance(r.remoteWindowStart, start)
  {
    if r.remoteWindowStart == start then r
    else
      DistanceStep(r.remoteWindowStart, start);
      Slide(r.(bits := r.bits[r.remoteWindowStart % WINDOW := false], remoteWindowStart := Next(r.remoteWindowStart)),
            start)
  }

  ghost function HeldSlots(r: Receiver): set<int> {
    set i | 0 <= i < |r.held| && r.held[i].Some?
  }

  ghost function EarlySlots(r: Receiver): set<int> {
    set i | 0 <= i < |r.early| && r.early[i]
  }

  /** Release held packets for as long as the next expected one is there. */
  function DrainHeld(r: Receiver): (s: Receiver)
    requires r.Valid()
    ensures s.Valid()
    ensures s == r.(held := s.held, delivered := s.delivered, remoteSequence := s.remoteSequence)
    decreases HeldSlots(r)
  {
    var index := r.remoteSequence % WINDOW;
    if r.held[index].None? then r
    else
      var next := r.(held := r.held[index := None],
                     delivered := r.delivered + [r.held[index].value],
                     remoteSequence := Next(r.remoteSequence));
      assert index in HeldSlots(r) && index !in HeldSlots(next) && HeldSlots(next) <= HeldSlots(r);
      DrainHeld(next)
  }

  /** Unordered mode: skip over what was delivered early. */
  function DrainEarly(r: Receiver): (s: Receiver)
    requires r.Valid()
    ensures s.Valid()
    ensures s == r.(early := s.early, remoteSequence := s.remoteSequence)
    decreases EarlySlots(r)
  {
    var index := r.remoteSequence % WINDOW;
    if !r.early[index] then r
    else
      var next := r.(early := r.early[index := false], remoteSequence := Next(r.remoteSequence));
      assert index in EarlySlots(r) && index !in EarlySlots(next) && EarlySlots(next) <= EarlySlots(r);
      DrainEarly(next)
  }

  function Deliver(r: Receiver, packet: Packet): (s: Receiver)
    requires r.Valid()
    ensures s.Valid()
  {
    r.(delivered := r.delivered + [packet])
  }

  /** What ProcessPacket does with a packet whose acknowledgement bit it has just set. */
  function Take(r: Receiver, packet: Packet): (s: Receiver)
    requires r.Valid() && IsSequence(packet.sequence)
    ensures s.Valid()
  {
    var index := packet.sequence % WINDOW;
    if packet.sequence == r.remoteSequence then
      var first := Deliver(r, packet).(remoteSequence := Next(r.remoteSequence));
      if r.ordered then DrainHeld(first) else DrainEarly(first)
    else if r.ordered then r.(held := r.held[index := Some(packet)])
    else Deliver(r.(early := r.early[index := true]), packet)
  }

  /** ProcessPacket for a channeled packet; the flag says whether it was new. */
  function Receive(r: Receiver, packet: Packet): (out: (Receiver, bool))
    requires r.Valid()
    ensures out.0.Valid()
  {
    if packet.sequence >= MAX_SEQUENCE || Dropped(packet.sequence, r.remoteWindowStart, r.remoteSequence) then
      (r, false)
    else
      var relate := Relative(packet.sequence, r.remoteWindowStart);
      var slid :=
        if relate < WINDOW then r
        else
          var start := (r.remoteWindowStart + relate - WINDOW + 1) % MAX_SEQUENCE;
          Slide(r.(ackSequence := start), start);
      var armed := slid.(mustSendAcks := true);
      var index := packet.sequence % WINDOW;
      if armed.bits[index] then (armed, false)
      else (Take(armed.(bits := armed.bits[index := true]), packet), true)
  }

  /** The acknowledgement datagram the channel would send now. */
  function Acknowledgement(r: Receiver): AckPacket {
    AckPacket(ACK_SIZE, r.ackSequence, r.bits)
  }
}
