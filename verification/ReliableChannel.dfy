/**
 * The C# ReliableChannel as an object: slot arrays, a byte buffer for the acknowledgement map
 * and wrapping counters, updated in place by loops. Every method is proved to do to the two
 * halves of its state exactly what WindowSender and WindowReceiver say.
 */
module ReliableChannel {
  import opened Sequences
  import opened Packets
  import opened AckBits
  import S = WindowSender
  import R = WindowReceiver

  datatype Datagram = Channeled(packet: Packet) | Ack(ack: AckPacket)

  /** A packet as it arrives; an acknowledgement brings its raw bytes. */
  datatype Incoming = Carried(packet: Packet) | Acknowledged(size: nat, sequence: nat, data: AckMap)

  function Data(packets: seq<Packet>): seq<Datagram> {
    if packets == [] then [] else [Channeled(packets[0])] + Data(packets[1..])
  }

  lemma {:induction false} DataAppend(a: seq<Packet>, b: seq<Packet>)
    ensures Data(a + b) == Data(a) + Data(b)
  {
    if a == [] {
      assert a + b == b;
    } else {
      assert (a + b)[1..] == a[1..] + b;
      DataAppend(a[1..], b);
    }
  }

  lemma {:induction false} SendDueKeepsPackets(s: S.Sender, at: int, now: int, delay: real)
    requires |s.pending| == WINDOW && IsSequence(s.localSequence) && IsSequence(at)
    ensures forall k :: 0 <= k < WINDOW ==> S.SendDue(s, at, now, delay).0.pending[k].packet == s.pending[k].packet
    decreases Distance(at, s.localSequence)
  {
    if at != s.localSequence {
      DistanceStep(at, s.localSequence);
      var index := at % WINDOW;
      var (slot, out) := S.TrySend(s.pending[index], now, delay);
      SendDueKeepsPackets(s.(pending := s.pending[index := slot]), Next(at), now, delay);
    }
  }

  class Channel {
    const ordered: bool
    const pending: array<S.Pending>
    const held: array<Option<Packet>>
    const early: array<bool>
    const acks: AckMap
    var queue: seq<Body>
    var localSequence: int
    var localWindowStart: int
    var remoteSequence: int
    var remoteWindowStart: int
    var ackSequence: nat
    var mustSendAcks: bool
    var sent: seq<Datagram>
    var delivered: seq<Packet>

    ghost predicate Valid()
      reads this, pending, held, early, acks, acks.raw
    {
      ValidSender() && ValidReceiver()
    }

    ghost predicate ValidSender()
      reads this`queue, this`localSequence, this`localWindowStart, pending
    {
      pending.Length == WINDOW && Sender().Valid()
    }

    ghost predicate ValidReceiver()
      reads this`remoteSequence, this`remoteWindowStart, this`ackSequence, this`mustSendAcks, this`delivered
      reads held, early, acks, acks.raw
    {
      acks.Valid() && held.Length == early.Length == WINDOW && Receiver().Valid()
    }

    ghost function Sender(): S.Sender
      reads this`queue, this`localSequence, this`localWindowStart, pending
    {
      S.Sender(queue, pending[..], localSequence, localWindowStart)
    }

    ghost function Receiver(): R.Receiver
      reads this`remoteSequence, this`remoteWindowStart, this`ackSequence, this`mustSendAcks, this`delivered
      reads held, early, acks
    {
      R.Receiver(ordered, acks.bits, held[..], early[..],
                 remoteSequence, remoteWindowStart, ackSequence, mustSendAcks, delivered)
    }

    constructor (ordered: bool)
      ensures Valid() && fresh(pending) && fresh(held) && fresh(early) && fresh(acks) && fresh(acks.raw)
      ensures Sender() == S.Fresh() && Receiver() == R.Fresh(ordered) && sent == []
    {
      this.ordered := ordered;
      pending := new S.Pending[WINDOW](i => S.EMPTY);
      held := new Option<Packet>[WINDOW](i => None);
      early := new bool[WINDOW](i => false);
      acks := new AckMap();
      queue, sent, delivered := [], [], [];
      localSequence, localWindowStart := 0, 0;
      remoteSequence, remoteWindowStart, ackSequence := 0, 0, 0;
      mustSendAcks := false;
      new;
      assert pending[..] == S.Fresh().pending;
      assert held[..] == R.Fresh(ordered).held;
      assert early[..] == R.Fresh(ordered).early;
    }

    method Enqueue(body: Body)
      requires ValidSender()
      modifies this`queue
      ensures ValidSender()
      ensures Sender() == old(Sender()).(queue := old(queue) + [body])
    {
      queue := queue + [body];
    }

    /** `data` is the datagram's raw bytes; they are looked at only if the size is right. */
    method ProcessAck(size: nat, sequence: nat, data: AckMap)
      requires ValidSender() && data.Valid()
      modifies this`localWindowStart, pending
      ensures ValidSender() && Sender() == S.ProcessAck(old(Sender()), AckPacket(size, sequence, data.bits))
    {
      S.ProcessAckKeepsValid(Sender(), AckPacket(size, sequence, data.bits));
      if size != ACK_SIZE {
        return;
      }
      var windowRel := Relative(localWindowStart, sequence);
      if sequence >= MAX_SEQUENCE || windowRel < 0 {
        return;
      }
      if windowRel >= WINDOW {
        return;
      }
      ghost var bits := data.bits;
      var at := localWindowStart;
      while at != localSequence
        invariant IsSequence(at) && IsSequence(localWindowStart) && IsSequence(localSequence)
        invariant localSequence == old(localSequence) && queue == old(queue)
        invariant S.ScanAcks(Sender(), at, sequence, bits)
                  == S.ScanAcks(old(Sender()), old(localWindowStart), sequence, bits)
        decreases Distance(at, localSequence)
      {
        DistanceStep(at, localSequence);
        var rel := Relative(at, sequence);
        if rel >= WINDOW {
          break;
        }
        var index := at % WINDOW;
        var acknowledged := data.Test(index);
        if !acknowledged {
          at := Next(at);
          continue;
        }
        ghost var before := Sender();
        if at == localWindowStart {
          localWindowStart := (localWindowStart + 1) % MAX_SEQUENCE;
        }
        pending[index] := pending[index].(packet := None);
        assert pending[..] == before.pending[index := before.pending[index].(packet := None)];
        at := Next(at);
      }
    }

    /** Step 2 of SendNextPackets: take up to `capacity` packets off the queue. */
    method Dequeue(capacity: int) returns (dequeued: seq<Body>)
      modifies this`queue
      ensures dequeued + queue == old(queue)
      ensures |dequeued| == if capacity <= 0 then 0 else if capacity < |old(queue)| then capacity else |old(queue)|
    {
      dequeued := [];
      if capacity > 0 {
        while |dequeued| < capacity && queue != []
          invariant |dequeued| <= capacity
          invariant dequeued + queue == old(queue)
          decreases |queue|
        {
          dequeued := dequeued + [queue[0]];
          queue := queue[1..];
        }
      }
    }

    /** Step 3 of SendNextPackets: number the packets and put them in their slots. */
    method Assign(dequeued: seq<Body>)
      requires ValidSender()
      modifies this`localSequence, pending
      ensures Sender() == S.Admit(old(Sender()).(queue := dequeued + queue), |dequeued|)
    {
      for i := 0 to |dequeued|
        invariant IsSequence(localSequence)
        invariant S.Admit(Sender().(queue := dequeued[i..] + queue), |dequeued| - i)
                  == S.Admit(old(Sender()).(queue := dequeued + queue), |dequeued|)
      {
        ghost var before := Sender().(queue := dequeued[i..] + queue);
        var index := localSequence % WINDOW;
        pending[index] := pending[index].(packet := Some(Packet(localSequence, dequeued[i])), sent := false);
        localSequence := (localSequence + 1) % MAX_SEQUENCE;
        assert before.queue[0] == dequeued[i] && before.queue[1..] == dequeued[i + 1..] + queue;
        assert pending[..] == before.pending[index := pending[index]];
      }
      assert dequeued[|dequeued|..] + queue == queue;
    }

    /** The send loop of SendNextPackets; the flag says whether any slot holds a packet. */
    method Transmit(now: int, delay: real) returns (hasPending: bool)
      requires pending.Length == WINDOW && IsSequence(localSequence) && IsSequence(localWindowStart)
      modifies this`sent, pending
      ensures Sender() == S.SendDue(old(Sender()), localWindowStart, now, delay).0
      ensures sent == old(sent) + Data(S.SendDue(old(Sender()), localWindowStart, now, delay).1)
      ensures hasPending == S.AnyPending(old(Sender()), localWindowStart)
    {
      hasPending := false;
      var at := localWindowStart;
      ghost var out: seq<Packet> := [];
      ghost var (end, packets) := S.SendDue(Sender(), at, now, delay);
      ghost var any := S.AnyPending(Sender(), at);
      assert out + packets == packets;
      while at != localSequence
        invariant IsSequence(at)
        invariant sent == old(sent) + Data(out)
        invariant S.SendDue(Sender(), at, now, delay).0 == end
        invariant out + S.SendDue(Sender(), at, now, delay).1 == packets
        invariant any == (hasPending || S.AnyPending(Sender(), at))
        decreases Distance(at, localSequence)
      {
        DistanceStep(at, localSequence);
        ghost var before := Sender();
        var emitted := SendSlot(at % WINDOW, now, delay);
        if pending[at % WINDOW].packet.Some? {
          hasPending := true;
        }
        S.AnyPendingIgnoresTimes(before, Sender(), Next(at));
        DataAppend(out, emitted);
        ghost var rest := S.SendDue(Sender(), Next(at), now, delay).1;
        assert out + (emitted + rest) == (out + emitted) + rest;
        out := out + emitted;
        at := Next(at);
      }
      assert out + [] == out;
    }

    /** PendingPacket.TrySend on a slot. */
    method SendSlot(index: nat, now: int, delay: real) returns (emitted: seq<Packet>)
      requires pending.Length == WINDOW && index < WINDOW
      modifies this`sent, pending
      ensures Sender() == old(Sender()).(pending := old(pending[..])[index := S.TrySend(old(pending[index]), now, delay).0])
      ensures emitted == S.TrySend(old(pending[index]), now, delay).1
      ensures sent == old(sent) + Data(emitted)
    {
      var (slot, packets) := S.TrySend(pending[index], now, delay);
      emitted := packets;
      pending[index] := slot;
      sent := sent + Data(packets);
    }

    /**
     * The acknowledgement, if owed, goes out first and as it is at that moment; then the window
     * is filled from the queue and everything due is sent.
     */
    method SendNextPackets(now: int, delay: real) returns (again: bool)
      requires ValidSender() && ValidReceiver()
      modifies this`mustSendAcks, this`sent, this`queue, this`localSequence, pending
      ensures ValidReceiver() && Receiver() == old(Receiver()).(mustSendAcks := false)
      ensures ValidSender() && Sender() == S.SendNext(old(Sender()), now, delay).0
      ensures sent == old(sent)
                      + (if old(mustSendAcks) then [Ack(R.Acknowledgement(old(Receiver())))] else [])
                      + Data(S.SendNext(old(Sender()), now, delay).1)
      ensures again == (queue != [] || S.AnyPending(Sender(), localWindowStart))
    {
      S.SendNextKeepsValid(Sender(), now, delay);
      FlushAcks();
      FillWindow();
      ghost var admitted := Sender();
      var hasPending := Transmit(now, delay);
      SendDueKeepsPackets(admitted, localWindowStart, now, delay);
      S.AnyPendingIgnoresTimes(admitted, Sender(), localWindowStart);
      again := hasPending || mustSendAcks || queue != [];
    }

    /** The acknowledgement goes out if one is owed. */
    method FlushAcks()
      requires ValidSender() && ValidReceiver()
      modifies this`mustSendAcks, this`sent
      ensures ValidReceiver() && Receiver() == old(Receiver()).(mustSendAcks := false) && Sender() == old(Sender())
      ensures sent == old(sent) + (if old(mustSendAcks) then [Ack(R.Acknowledgement(old(Receiver())))] else [])
    {
      if mustSendAcks {
        mustSendAcks := false;
        var bits := acks.Render();
        sent := sent + [Ack(AckPacket(ACK_SIZE, ackSequence, bits))];
      }
    }

    /** As many packets as the window has room for are taken from the queue and numbered. */
    method FillWindow()
      requires ValidSender() && ValidReceiver()
      modifies this`queue, this`localSequence, pending
      ensures Sender() == S.Admit(old(Sender()), S.Admissible(old(Sender())))
      ensures ValidReceiver() && Receiver() == old(Receiver())
    {
      var capacity := WINDOW - Relative(localSequence, localWindowStart);
      var dequeued := Dequeue(capacity);
      Assign(dequeued);
    }

    /** The clearing loop of ProcessPacket. */
    method Slide(start: int)
      requires ValidReceiver() && IsSequence(start)
      modifies this`remoteWindowStart, acks, acks.raw
      ensures ValidReceiver()
      ensures Receiver() == R.Slide(old(Receiver()), start)
    {
      while remoteWindowStart != start
        invariant ValidReceiver()
        invariant R.Slide(Receiver(), start) == R.Slide(old(Receiver()), start)
        decreases Distance(remoteWindowStart, start)
      {
        DistanceStep(remoteWindowStart, start);
        acks.Clear(remoteWindowStart % WINDOW);
        remoteWindowStart := (remoteWindowStart + 1) % MAX_SEQUENCE;
      }
    }

    /** The release loop of ordered mode. */
    method DrainHeld()
      requires ValidReceiver()
      modifies this`remoteSequence, this`delivered, held
      ensures ValidReceiver()
      ensures Receiver() == R.DrainHeld(old(Receiver()))
    {
      while held[remoteSequence % WINDOW].Some?
        invariant ValidReceiver()
        invariant R.DrainHeld(Receiver()) == R.DrainHeld(old(Receiver()))
        decreases R.HeldSlots(Receiver())
      {
        ghost var before := Receiver();
        var index := remoteSequence % WINDOW;
        var p := held[index].value;
        held[index] := None;
        delivered := delivered + [p];
        remoteSequence := (remoteSequence + 1) % MAX_SEQUENCE;
        assert held[..] == before.held[index := None];
        assert index in R.HeldSlots(before) && index !in R.HeldSlots(Receiver());
        assert R.HeldSlots(Receiver()) <= R.HeldSlots(before);
      }
    }

    /** The skipping loop of unordered mode. */
    method DrainEarly()
      requires ValidReceiver()
      modifies this`remoteSequence, early
      ensures ValidReceiver()
      ensures Receiver() == R.DrainEarly(old(Receiver()))
    {
      while early[remoteSequence % WINDOW]
        invariant ValidReceiver()
        invariant R.DrainEarly(Receiver()) == R.DrainEarly(old(Receiver()))
        decreases R.EarlySlots(Receiver())
      {
        ghost var before := Receiver();
        var index := remoteSequence % WINDOW;
        early[index] := false;
        remoteSequence := (remoteSequence + 1) % MAX_SEQUENCE;
        assert early[..] == before.early[index := false];
        assert index in R.EarlySlots(before) && index !in R.EarlySlots(Receiver());
        assert R.EarlySlots(Receiver()) <= R.EarlySlots(before);
      }
    }

    /** The part of ProcessPacket after the acknowledgement bit was set. */
    method Take(packet: Packet)
      requires ValidReceiver() && IsSequence(packet.sequence)
      modifies this`remoteSequence, this`delivered, held, early
      ensures ValidReceiver()
      ensures Receiver() == R.Take(old(Receiver()), packet)
    {
      if packet.sequence == remoteSequence {
        delivered := delivered + [packet];
        remoteSequence := (remoteSequence + 1) % MAX_SEQUENCE;
        if ordered {
          DrainHeld();
        } else {
          DrainEarly();
        }
        return;
      }
      var ackIndex := packet.sequence % WINDOW;
      if ordered {
        held[ackIndex] := Some(packet);
        assert held[..] == old(held[..])[ackIndex := Some(packet)];
      } else {
        early[ackIndex] := true;
        delivered := delivered + [packet];
        assert early[..] == old(early[..])[ackIndex := true];
      }
    }

    /** A packet for this channel: an acknowledgement goes to the sending half, data to the receiving half. */
    method ProcessPacket(d: Incoming) returns (isNew: bool)
      requires Valid() && (d.Acknowledged? ==> d.data.Valid())
      modifies this`localWindowStart, pending, this`remoteSequence, this`remoteWindowStart, this`ackSequence, this`mustSendAcks,
               this`delivered, held, early, acks, acks.raw
      ensures Valid()
      ensures d.Acknowledged? ==>
                && !isNew && Receiver() == old(Receiver())
                && Sender() == S.ProcessAck(old(Sender()), AckPacket(d.size, d.sequence, old(d.data.bits)))
      ensures d.Carried? ==> Sender() == old(Sender()) && (Receiver(), isNew) == R.Receive(old(Receiver()), d.packet)
    {
      match d {
        case Acknowledged(size, sequence, data) =>
          ProcessAck(size, sequence, data);
          isNew := false;
        case Carried(packet) =>
          isNew := ProcessData(packet);
      }
    }

    /** The rest of ProcessPacket, for a channeled packet. */
    method ProcessData(packet: Packet) returns (isNew: bool)
      requires ValidReceiver()
      modifies this`remoteSequence, this`remoteWindowStart, this`ackSequence, this`mustSendAcks, this`delivered,
               held, early, acks, acks.raw
      ensures ValidReceiver()
      ensures (Receiver(), isNew) == R.Receive(old(Receiver()), packet)
    {
      if packet.sequence >= MAX_SEQUENCE {
        return false;
      }
      var relate := Relative(packet.sequence, remoteWindowStart);
      var relateSeq := Relative(packet.sequence, remoteSequence);
      if relateSeq > WINDOW {
        return false;
      }
      if relate < 0 {
        return false;
      }
      if relate >= WINDOW * 2 {
        return false;
      }
      if relate >= WINDOW {
        var newWindowStart := (remoteWindowStart + relate - WINDOW + 1) % MAX_SEQUENCE;
        ackSequence := newWindowStart;
        Slide(newWindowStart);
      }
      mustSendAcks := true;
      var ackIndex := packet.sequence % WINDOW;
      var seen := acks.Test(ackIndex);
      if seen {
        return false;
      }
      acks.Set(ackIndex);
      Take(packet);
      return true;
    }
  }
}
