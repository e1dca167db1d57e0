/**
 * The Rust client's receive window (one channel of ReliableReceiveState) and its agreement with
 * the C# receiver it mirrors.
 */
module ReceiveWindow {
  import opened Sequences
  import opened Packets
  import R = WindowReceiver
  import RR = WindowReceiverRefinement
  import P = Protocol
  import SR = WindowSenderRefinement

  datatype State = State(received: seq<bool>, windowStart: nat, started: bool, dirty: bool)
  {
    predicate Valid() { |received| == WINDOW && windowStart < MAX_SEQUENCE }
  }

  /** `for _ in 0..shift`: drop one sequence after the other from the window. */
  function Shift(s: State, shift: nat): (r: State)
    requires s.Valid()
    ensures r.Valid()
    decreases shift
  {
    if shift == 0 then s
    else
      Shift(s.(received := s.received[s.windowStart % WINDOW := false], windowStart := (s.windowStart + 1) % MAX_SEQUENCE),
            shift - 1)
  }

  /** mark_new: record a sequence and say whether it is newly seen. */
  function MarkNew(s: State, sequence: nat): (out: (State, bool))
    requires s.Valid()
    ensures out.0.Valid()
  {
    if sequence >= MAX_SEQUENCE then (s, false)
    else
      var relate := RelativeRust(sequence, s.windowStart);
      if relate < 0 || relate >= WINDOW * 2 then (s, false)
      else
        var armed := s.(started := true, dirty := true);
        var slid := if relate >= WINDOW then Shift(armed, relate - WINDOW + 1) else armed;
        var bit := sequence % WINDOW;
        if slid.received[bit] then (slid, false) else (slid.(received := slid.received[bit := true]), true)
  }

  /** mark_new with its loop, on fields updated in place. */
  method Mark(s: State, sequence: nat) returns (r: State, isNew: bool)
    requires s.Valid()
    ensures (r, isNew) == MarkNew(s, sequence)
  {
    r := s;
    if sequence >= MAX_SEQUENCE {
      return r, false;
    }
    var relate := RelativeRust(sequence, r.windowStart);
    if relate < 0 || relate >= WINDOW * 2 {
      return r, false;
    }
    r := r.(started := true, dirty := true);
    if relate >= WINDOW {
      ghost var armed := r;
      var shift := relate - WINDOW + 1;
      for k := 0 to shift
        invariant r.Valid() && Shift(r, shift - k) == Shift(armed, shift)
      {
        r := r.(received := r.received[r.windowStart % WINDOW := false], windowStart := (r.windowStart + 1) % MAX_SEQUENCE);
      }
    }
    var bit := sequence % WINDOW;
    if r.received[bit] {
      return r, false;
    }
    r := r.(received := r.received[bit := true]);
    isNew := true;
  }

  ghost predicate Mirrors(s: State, r: R.Receiver) {
    s.received == r.bits && s.windowStart == r.remoteWindowStart
  }

  /** If both owe an acknowledgement or neither does, so it stays; a client that owes one has begun. */
  ghost predicate Owes(s: State, r: R.Receiver, t: State, q: R.Receiver) {
    (s.dirty == r.mustSendAcks ==> t.dirty == q.mustSendAcks) && ((s.dirty ==> s.started) ==> (t.dirty ==> t.started))
  }

  /** `ack_window`: the window start and the absolute bits. */
  function AckOf(s: State): AckPacket { AckPacket(ACK_SIZE, s.windowStart, s.received) }

  /** One sequence dropped from the window, in either receiver. */
  function ShiftedOne(s: State): (r: State)
    requires s.Valid()
    ensures r.Valid()
  {
    s.(received := s.received[s.windowStart % WINDOW := false], windowStart := (s.windowStart + 1) % MAX_SEQUENCE)
  }

  function SlidOne(r: R.Receiver): (q: R.Receiver)
    requires r.Valid()
    ensures q.Valid()
  {
    r.(bits := r.bits[r.remoteWindowStart % WINDOW := false], remoteWindowStart := Next(r.remoteWindowStart))
  }

  lemma {:induction false} OneStep(s: State, r: R.Receiver, start: int)
    requires s.Valid() && r.Valid() && Mirrors(s, r) && IsSequence(start) && r.remoteWindowStart != start
    ensures Mirrors(ShiftedOne(s), SlidOne(r)) && R.Slide(r, start) == R.Slide(SlidOne(r), start)
    ensures SlidOne(r).remoteWindowStart == (r.remoteWindowStart + 1) % MAX_SEQUENCE
    ensures ShiftedOne(s).started == s.started && ShiftedOne(s).dirty == s.dirty
  {
  }

  lemma {:induction false} NoShift(s: State, r: R.Receiver)
    requires s.Valid() && r.Valid()
    ensures Shift(s, 0) == s && R.Slide(r, r.remoteWindowStart) == r && (r.remoteWindowStart + 0) % MAX_SEQUENCE == r.remoteWindowStart
  {
  }

  lemma {:induction false} ShiftOne(s: State, shift: nat)
    requires s.Valid() && shift > 0
    ensures Shift(s, shift) == Shift(ShiftedOne(s), shift - 1)
  {
  }

  lemma {:induction false} TakeKeepsWindow(r: R.Receiver, p: Packet)
    requires r.Valid() && IsSequence(p.sequence)
    ensures var s := R.Take(r, p); s.bits == r.bits && s.remoteWindowStart == r.remoteWindowStart && s.mustSendAcks == r.mustSendAcks
  {
  }

  lemma {:induction false} NextStart(start: int, shift: nat)
    requires IsSequence(start) && 0 < shift <= WINDOW
    ensures ((start + 1) % MAX_SEQUENCE + (shift - 1)) % MAX_SEQUENCE == (start + shift) % MAX_SEQUENCE
    ensures (start + shift) % MAX_SEQUENCE != start
  {
  }

  lemma {:induction false} ShiftIsSlide(s: State, r: R.Receiver, shift: nat)
    requires s.Valid() && r.Valid() && Mirrors(s, r) && shift <= WINDOW
    ensures Mirrors(Shift(s, shift), R.Slide(r, (r.remoteWindowStart + shift) % MAX_SEQUENCE))
    ensures Shift(s, shift).started == s.started && Shift(s, shift).dirty == s.dirty
    decreases shift
  {
    hide R.Slide, Shift, ShiftedOne, SlidOne, Mirrors;
    NoShift(s, r);
    if shift > 0 {
      NextStart(r.remoteWindowStart, shift);
      OneStep(s, r, (r.remoteWindowStart + shift) % MAX_SEQUENCE);
      ShiftOne(s, shift);
      ShiftIsSlide(ShiftedOne(s), SlidOne(r), shift - 1);
    }
  }

  /**
   * The Rust window takes and acknowledges exactly what the C# window does, for every sequence
   * the C# receiver's extra test against its delivery position does not refuse.
   */
  lemma {:induction false} MarkNewMirrorsReceive(s: State, r: R.Receiver, packet: Packet)
    requires s.Valid() && r.Valid() && Mirrors(s, r)
    requires packet.sequence < MAX_SEQUENCE ==> Relative(packet.sequence, r.remoteSequence) <= WINDOW
    ensures var (t, isNew) := MarkNew(s, packet.sequence);
            var (q, alsoNew) := R.Receive(r, packet);
            && Mirrors(t, q) && isNew == alsoNew && Owes(s, r, t, q)
  {
    hide R.Slide, R.Take, Shift;
    if packet.sequence < MAX_SEQUENCE {
      var sequence := packet.sequence;
      RelativesAgree(sequence, r.remoteWindowStart);
      var relate := Relative(sequence, r.remoteWindowStart);
      var q := r;
      if WINDOW <= relate < WINDOW * 2 {
        var start := (r.remoteWindowStart + relate - WINDOW + 1) % MAX_SEQUENCE;
        ShiftIsSlide(s.(started := true, dirty := true), r.(ackSequence := start), relate - WINDOW + 1);
        q := R.Slide(r.(ackSequence := start), start);
      }
      TakeKeepsWindow(q.(mustSendAcks := true, bits := q.bits[sequence % WINDOW := true]), packet);
    }
  }

  /** On a sound channel the extra test refuses nothing in time, so the mirror never breaks. */
  lemma {:induction false} MirrorHoldsOnChannel(s: State, r: R.Receiver, i: P.Ideal, n: nat)
    requires s.Valid() && Mirrors(s, r)
    requires RR.Represents(r, i) && P.SenderSound(i) && P.ReceiverSound(i)
    requires n < i.next && i.floor <= n + MAX_SEQUENCE - 2 * WINDOW
    ensures var p := SR.PacketOf(i.log, n);
            var (t, isNew) := MarkNew(s, p.sequence);
            && Mirrors(t, R.Receive(r, p).0) && (isNew <==> n !in i.accepted) && Owes(s, r, t, R.Receive(r, p).0)
  {
    P.OutstandingIsWelcome(i);
    RR.ReceiveRefines(r, i, n);
    if n >= i.floor {
      RelativeIsDifference(n, i.expected);
      MarkNewMirrorsReceive(s, r, SR.PacketOf(i.log, n));
    } else {
      if i.floor - n <= HALF {
        RelativeIsDifference(n, i.floor);
      } else {
        RelativeOfLate(n, i.floor);
      }
      RelativesGiveSameVerdicts(Wire(n), Wire(i.floor), 2 * WINDOW);
      RR.FreshCopyDropped(i, n);
      P.BelowFloorIsAccepted(i, n);
    }
  }
}
