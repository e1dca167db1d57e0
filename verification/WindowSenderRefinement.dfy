/**
 * The C# sender, with its 128 slots and wrapping counters, carries out the unbounded protocol.
 */
module WindowSenderRefinement {
  import opened Sequences
  import opened Packets
  import opened Protocol
  import opened WindowSender

  function PacketOf(log: seq<Body>, n: nat): Packet
    requires n < |log|
  {
    Packet(Wire(n), log[n])
  }

  /** Packets of the numbers from `from` up to `end`. */
  function PacketsOf(log: seq<Body>, from: nat, end: nat): (r: seq<Packet>)
    requires from <= end <= |log|
    ensures |r| == end - from
    ensures forall k :: 0 <= k < |r| ==> r[k] == PacketOf(log, from + k)
  {
    seq(end - from, k requires 0 <= k < end - from => PacketOf(log, from + k))
  }

  /** The slot of number n while it is outstanding: empty once acknowledged. */
  ghost function Outstanding(i: Ideal, n: nat): Option<Packet>
    requires n < |i.log|
  {
    if n in i.acked then None else Some(PacketOf(i.log, n))
  }

  /** p is the packet of some number in the window that is not yet acknowledged. */
  ghost predicate IsOutstanding(p: Packet, i: Ideal) {
    exists n :: i.base <= n < i.next && n < |i.log| && n !in i.acked && p == PacketOf(i.log, n)
  }

  ghost predicate Represents(s: Sender, i: Ideal) {
    && |s.pending| == WINDOW
    && i.base <= i.next <= |i.log|
    && i.next <= i.base + WINDOW
    && s.queue == i.log[i.next..]
    && s.localSequence == Wire(i.next)
    && s.localWindowStart == Wire(i.base)
    && forall n :: i.base <= n < i.next ==> s.pending[Slot(n)].packet == Outstanding(i, n)
  }

  lemma {:induction false} RepresentsIsValid(s: Sender, i: Ideal)
    requires Represents(s, i)
    ensures s.Valid()
  {
  }

  /** The acknowledgement datagram of a view: absolute bits, bit Slot(n) for number n. */
  ghost predicate Encodes(ack: AckPacket, v: View) {
    && ack.size == ACK_SIZE
    && ack.sequence == Wire(v.floor)
    && |ack.bits| == WINDOW
    && forall n :: v.floor <= n < v.floor + WINDOW ==> (ack.bits[Slot(n)] <==> n in v.accepted)
  }

  /** First number from `w` below `limit` whose bit is clear. */
  function Advance(w: nat, limit: nat, bits: seq<bool>): (r: nat)
    requires w <= limit
    ensures w <= r <= limit
    ensures forall m :: w <= m < r ==> HasBit(bits, Slot(m))
    ensures r < limit ==> !HasBit(bits, Slot(r))
    decreases limit - w
  {
    if w < limit && HasBit(bits, Slot(w)) then Advance(w + 1, limit, bits) else w
  }

  /** What the ProcessAck loop does from number `n` on, in unbounded terms. */
  lemma {:induction false} ScanAcksClears(s: Sender, w: nat, n: nat, next: nat, f: nat, bits: seq<bool>)
    requires |s.pending| == WINDOW && w <= n <= next <= w + WINDOW
    requires s.localSequence == Wire(next) && s.localWindowStart == Wire(w)
    requires f <= w < f + WINDOW
    ensures var r := ScanAcks(s, Wire(n), Wire(f), bits);
            var limit := if f + WINDOW < next then f + WINDOW else next;
            && r.queue == s.queue && r.localSequence == s.localSequence
            && r.localWindowStart == Wire(if w == n && n <= limit then Advance(n, limit, bits) else w)
            && (forall m :: n <= m < next ==>
                  r.pending[Slot(m)] ==
                    if m < limit && HasBit(bits, Slot(m)) then s.pending[Slot(m)].(packet := None)
                    else s.pending[Slot(m)])
            && (forall k :: 0 <= k < WINDOW && (forall m :: n <= m < next ==> Slot(m) != k) ==>
                  r.pending[k] == s.pending[k])
    decreases next - n
  {
    var r := ScanAcks(s, Wire(n), Wire(f), bits);
    var limit := if f + WINDOW < next then f + WINDOW else next;
    if n == next {
      return;
    }
    WireDistance(n, next);
    RelativeIsDifference(n, f);
    if n - f >= WINDOW {
      return;
    }
    WireStep(n);
    SlotOfWire(n);
    var index := Slot(n);
    forall m | n < m < next
      ensures Slot(m) != index
    {
      if Slot(m) == index {
        SlotInjective(m, n);
      }
    }
    if !HasBit(bits, index) {
      ScanAcksClears(s, w, n + 1, next, f, bits);
    } else {
      if Wire(n) == Wire(w) {
        WireInjective(n, w);
      }
      var moved := if w == n then n + 1 else w;
      WireStep(w);
      var t := s.(localWindowStart := Wire(moved), pending := s.pending[index := s.pending[index].(packet := None)]);
      if moved < f + WINDOW {
        ScanAcksClears(t, moved, n + 1, next, f, bits);
      } else {
        ScanStops(t, n + 1, next, f, bits);
      }
    }
  }

  /** Past the acknowledged window the loop stops at once. */
  lemma {:induction false} ScanStops(s: Sender, n: nat, next: nat, f: nat, bits: seq<bool>)
    requires |s.pending| == WINDOW && IsSequence(s.localWindowStart)
    requires s.localSequence == Wire(next)
    requires f + WINDOW <= n < f + 2 * WINDOW
    ensures ScanAcks(s, Wire(n), Wire(f), bits) == s
  {
    RelativeIsDifference(n, f);
  }

  /** Ack age up to a whole sequence space: whether ProcessAck looks at it is decided exactly. */
  lemma {:induction false} AckConsidered(base: nat, floor: nat)
    requires floor <= base < floor + MAX_SEQUENCE
    ensures 0 <= Relative(Wire(base), Wire(floor)) < WINDOW <==> base - floor < WINDOW
  {
  }

  /** The slots after the scan are those of the new state. */
  lemma {:induction false} SlotsAfterAck(s: Sender, r: Sender, i: Ideal, v: View, ack: AckPacket)
    requires Represents(s, i) && SenderSound(i) && Encodes(ack, v) && ViewSound(v)
    requires v.floor <= i.base < v.floor + WINDOW && (forall n <- v.accepted :: n < i.next)
    requires |r.pending| == WINDOW && r.queue == s.queue && r.localSequence == s.localSequence
    requires r.localWindowStart == Wire(HearAck(i, v).base)
    requires forall m :: i.base <= m < i.next ==>
               r.pending[Slot(m)] ==
                 if m < v.floor + WINDOW && HasBit(ack.bits, Slot(m)) then s.pending[Slot(m)].(packet := None) else s.pending[Slot(m)]
    requires HearAck(i, v).base <= i.next
    ensures Represents(r, HearAck(i, v))
  {
  }

  lemma {:induction false} ProcessAckRefines(s: Sender, i: Ideal, ack: AckPacket, v: View)
    requires Represents(s, i) && SenderSound(i)
    requires Encodes(ack, v) && ViewSound(v)
    requires v.floor <= i.base < v.floor + MAX_SEQUENCE
    requires Nested(v.accepted, i.acked) && forall n <- v.accepted :: n < i.next
    ensures s.Valid() && Represents(ProcessAck(s, ack), HearAck(i, v))
  {
    RepresentsIsValid(s, i);
    AckConsidered(i.base, v.floor);
    if i.base - v.floor < WINDOW {
      var limit := if v.floor + WINDOW < i.next then v.floor + WINDOW else i.next;
      ScanAcksClears(s, i.base, i.base, i.next, v.floor, ack.bits);
      AdvanceIsFirstGap(i, v, ack, limit);
      var r := ProcessAck(s, ack);
      assert r == ScanAcks(s, Wire(i.base), Wire(v.floor), ack.bits);
      hide ScanAcks, ProcessAck, Advance, FirstGap, Wire, Relative, ViewSound;
      SlotsAfterAck(s, r, i, v, ack);
    }
  }

  lemma {:induction false} AdvanceIsFirstGap(i: Ideal, v: View, ack: AckPacket, limit: nat)
    requires SenderSound(i) && Encodes(ack, v) && ViewSound(v)
    requires v.floor <= i.base < v.floor + WINDOW
    requires Nested(v.accepted, i.acked) && forall n <- v.accepted :: n < i.next
    requires limit == if v.floor + WINDOW < i.next then v.floor + WINDOW else i.next
    ensures i.base <= limit
    ensures Advance(i.base, limit, ack.bits) == FirstGap(i.base, i.acked + v.accepted)
  {
    var w := Advance(i.base, limit, ack.bits);
    var g := FirstGap(i.base, i.acked + v.accepted);
    assert limit !in v.accepted;
    assert w !in v.accepted;
    if v.accepted <= i.acked {
      assert g == i.base;
      assert w > i.base ==> i.base in v.accepted;
    } else {
      assert g > w ==> w in i.acked + v.accepted;
      assert w > g ==> g in v.accepted;
    }
  }

  /**
   * The lifetime of an acknowledgement cannot be longer: one whose view begins a whole sequence
   * space before the send window is read as one of the present window, and the oldest packet is
   * given up for the sake of the one that had its sequence then, accepted or not.
   */
  lemma {:induction false} AckLifetimeIsTight(s: Sender, i: Ideal, ack: AckPacket, v: View)
    requires Represents(s, i) && SenderSound(i) && Encodes(ack, v)
    requires i.base == v.floor + MAX_SEQUENCE && i.base < i.next && v.floor in v.accepted
    ensures s.Valid() && s.pending[Slot(i.base)].packet == Some(PacketOf(i.log, i.base))
    ensures var r := ProcessAck(s, ack);
            r.pending[Slot(i.base)].packet == None && r.localWindowStart != s.localWindowStart
  {
    RepresentsIsValid(s, i);
    WholeSpaceApart(v.floor);
    RelativeIsDifference(i.base, i.base);
    hide Wire, Slot, Relative;
    ScanAcksClears(s, i.base, i.base, i.next, i.base, ack.bits);
    var limit := if i.base + WINDOW < i.next then i.base + WINDOW else i.next;
    hide ScanAcks;
    var w := Advance(i.base, limit, ack.bits);
    assert w > i.base;
    if Wire(w) == Wire(i.base) {
      WireInjective(w, i.base);
    }
  }

  lemma {:induction false} WholeSpaceApart(n: nat)
    ensures Wire(n) == Wire(n + MAX_SEQUENCE) && Slot(n) == Slot(n + MAX_SEQUENCE) < WINDOW
    ensures IsSequence(Wire(n))
  {
  }

  lemma {:induction false} AdmitRefines(s: Sender, i: Ideal, count: nat)
    requires Represents(s, i) && (forall n <- i.acked :: n < i.next)
    requires count <= |s.queue| && i.next + count <= i.base + WINDOW
    ensures Represents(Admit(s, count), i.(next := i.next + count))
    ensures forall n :: i.next <= n < i.next + count ==> !Admit(s, count).pending[Slot(n)].sent
    decreases count
  {
    if count > 0 {
      SlotOfWire(i.next);
      WireStep(i.next);
      var index := Slot(i.next);
      var slot := s.pending[index].(packet := Some(Packet(s.localSequence, s.queue[0])), sent := false);
      var t := s.(queue := s.queue[1..], pending := s.pending[index := slot], localSequence := Next(s.localSequence));
      var j := i.(next := i.next + 1);
      assert t.queue == j.log[j.next..];
      forall n | j.base <= n < j.next
        ensures t.pending[Slot(n)].packet == Outstanding(j, n)
      {
        if n < i.next && Slot(n) == index {
          SlotInjective(n, i.next);
        }
      }
      AdmitRefines(t, j, count - 1);
      AdmitKeepsSlot(t, i.next, i.next + 1, count - 1);
    }
  }

  lemma {:induction false} AdmitKeepsSlot(s: Sender, n: nat, next: nat, count: nat)
    requires |s.pending| == WINDOW && s.localSequence == Wire(next) && count <= |s.queue|
    requires n < next && next + count <= n + WINDOW
    ensures Admit(s, count).pending[Slot(n)] == s.pending[Slot(n)]
    decreases count
  {
    if count > 0 {
      SlotOfWire(next);
      WireStep(next);
      if Slot(n) == Slot(next) {
        SlotInjective(n, next);
      }
      var index := s.localSequence % WINDOW;
      var slot := s.pending[index].(packet := Some(Packet(s.localSequence, s.queue[0])), sent := false);
      AdmitKeepsSlot(
        s.(queue := s.queue[1..], pending := s.pending[index := slot], localSequence := Next(s.localSequence)),
        n, next + 1, count - 1);
    }
  }

  /** A slot is due when it was never sent or has been held for the resend delay. */
  predicate Due(slot: Pending, now: int, delay: real) {
    slot.packet.Some? && (slot.sent ==> (now - slot.stamp) as real >= delay)
  }

  /** The send loop emits exactly the due slots and leaves every packet where it was. */
  lemma {:induction false} SendDueEmits(s: Sender, n: nat, next: nat, now: int, delay: real)
    requires |s.pending| == WINDOW && n <= next <= n + WINDOW
    requires s.localSequence == Wire(next)
    ensures var (r, out) := SendDue(s, Wire(n), now, delay);
            && (forall k :: 0 <= k < WINDOW ==> r.pending[k].packet == s.pending[k].packet)
            && (forall p :: p in out <==>
                  exists m :: n <= m < next && Due(s.pending[Slot(m)], now, delay)
                              && p == s.pending[Slot(m)].packet.value)
    decreases next - n
  {
    if n < next {
      WireDistance(n, next);
      SlotOfWire(n);
      WireStep(n);
      var index := Slot(n);
      var (slot, sent) := TrySend(s.pending[index], now, delay);
      var t := s.(pending := s.pending[index := slot]);
      SendDueEmits(t, n + 1, next, now, delay);
      forall m | n < m < next
        ensures Slot(m) != index
      {
        if Slot(m) == index {
          SlotInjective(m, n);
        }
      }
      var (r, out) := SendDue(s, Wire(n), now, delay);
      var rest := SendDue(t, Wire(n + 1), now, delay).1;
      assert out == sent + rest;
      forall p
        ensures p in out <==>
                exists m :: n <= m < next && Due(s.pending[Slot(m)], now, delay) && p == s.pending[Slot(m)].packet.value
      {
        if p in rest {
          var m :| n + 1 <= m < next && Due(t.pending[Slot(m)], now, delay) && p == t.pending[Slot(m)].packet.value;
          assert s.pending[Slot(m)] == t.pending[Slot(m)];
        }
        if m :| n <= m < next && Due(s.pending[Slot(m)], now, delay) && p == s.pending[Slot(m)].packet.value {
          if m > n {
            assert t.pending[Slot(m)] == s.pending[Slot(m)];
          }
        }
      }
    }
  }

  /**
   * SendNextPackets is Pump: it numbers as many queued bodies as the window holds, and what it
   * puts on the wire are outstanding packets, each under its own number.
   */
  lemma {:induction false} SendNextRefines(s: Sender, i: Ideal, now: int, delay: real)
    requires Represents(s, i) && SenderSound(i) && (forall n <- i.acked :: n < i.next)
    ensures s.Valid()
    ensures var (r, out) := SendNext(s, now, delay);
            var j := Pump(i);
            && Represents(r, j)
            && (forall p <- out :: IsOutstanding(p, j))
            && (forall n | j.base <= n < j.next && n !in j.acked && (n >= i.next || Due(s.pending[Slot(n)], now, delay)) ::
                  PacketOf(j.log, n) in out)
  {
    RepresentsIsValid(s, i);
    RelativeIsDifference(i.next, i.base);
    var count := Admissible(s);
    var j := Pump(i);
    assert j.next == i.next + count;
    var t := Admit(s, count);
    AdmitRefines(s, i, count);
    SendDueEmits(t, i.base, j.next, now, delay);
    var (r, out) := SendNext(s, now, delay);
    forall n | j.base <= n < j.next && n !in j.acked && (n >= i.next || Due(s.pending[Slot(n)], now, delay))
      ensures PacketOf(j.log, n) in out
    {
      if n < i.next {
        AdmitKeepsSlot(s, n, i.next, count);
      }
      assert Due(t.pending[Slot(n)], now, delay);
    }
  }
}
