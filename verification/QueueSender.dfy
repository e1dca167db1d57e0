/**
 * The Rust client's reliable sender, one channel of it, as functions on values: a FIFO of
 * records that get their sequence only when they enter the window.
 */
module QueueSender {
  import opened Sequences
  import opened Packets

  datatype Record = Record(sequence: Option<nat>, body: Body, lastSent: Option<int>)

  /** The records of one channel and its entry of reliable_sequences. */
  datatype Queue = Queue(records: seq<Record>, next: nat)

  const RESEND_MILLIS := 150

  function Oldest(records: seq<Record>): Option<nat> {
    if records == [] then None
    else if records[0].sequence.Some? then records[0].sequence
    else Oldest(records[1..])
  }

  predicate HasUnsequenced(records: seq<Record>) {
    exists r <- records :: r.sequence.None?
  }

  function Capacity(q: Queue): nat {
    var sequence := q.next % MAX_SEQUENCE;
    var oldest := Oldest(q.records);
    var span := RelativeRust(sequence, if oldest.Some? then oldest.value else sequence);
    if 0 <= span <= WINDOW then WINDOW - span else 0
  }

  /** Third pass of promote_reliable_window: the records afterwards and the next sequence. */
  function Assign(records: seq<Record>, next: nat, capacity: nat, now: int): (r: (seq<Record>, nat))
    ensures |r.0| == |records|
  {
    if records == [] then ([], next)
    else if records[0].sequence.Some? || capacity == 0 then
      var (rest, last) := Assign(records[1..], next, capacity, now);
      ([records[0]] + rest, last)
    else
      var (rest, last) := Assign(records[1..], (next + 1) % MAX_SEQUENCE, capacity - 1, now);
      ([records[0].(sequence := Some(next), lastSent := Some(now))] + rest, last)
  }

  function Promote(q: Queue, now: int): (r: Queue)
    ensures |r.records| == |q.records|
  {
    if !HasUnsequenced(q.records) || Capacity(q) == 0 then q
    else
      var (records, next) := Assign(q.records, q.next % MAX_SEQUENCE, Capacity(q), now);
      Queue(records, next)
  }

  /** The packets of records that have a sequence after `q` became `p` and had none before. */
  function Promoted(before: seq<Record>, after: seq<Record>): seq<Packet>
    requires |before| == |after|
  {
    if before == [] then []
    else if before[0].sequence.None? && after[0].sequence.Some? then
      [Packet(after[0].sequence.value, after[0].body)] + Promoted(before[1..], after[1..])
    else Promoted(before[1..], after[1..])
  }

  predicate Acknowledges(ack: AckPacket, r: Record) {
    && r.sequence.Some?
    && RelativeRust(r.sequence.value, ack.sequence) < WINDOW
    && HasBit(ack.bits, r.sequence.value % WINDOW)
  }

  function Retain(records: seq<Record>, ack: AckPacket): seq<Record> {
    if records == [] then []
    else if Acknowledges(ack, records[0]) then Retain(records[1..], ack)
    else [records[0]] + Retain(records[1..], ack)
  }

  function ProcessAck(q: Queue, ack: AckPacket): Queue {
    var oldest := Oldest(q.records);
    if ack.size != ACK_SIZE || oldest.None? || ack.sequence >= MAX_SEQUENCE then q
    else
      var windowRel := RelativeRust(oldest.value, ack.sequence);
      if windowRel < 0 || windowRel >= WINDOW then q
      else q.(records := Retain(q.records, ack))
  }

  /** resend_reliable: sequenced and unsent, held long enough, or sent "after" now. */
  predicate Due(r: Record, now: int) {
    && r.sequence.Some?
    && (r.lastSent.None? || now < r.lastSent.value || now - r.lastSent.value >= RESEND_MILLIS)
  }

  function Resend(records: seq<Record>, now: int): (r: (seq<Record>, seq<Packet>))
    ensures |r.0| == |records|
  {
    if records == [] then ([], [])
    else
      var (rest, out) := Resend(records[1..], now);
      if Due(records[0], now) then
        ([records[0].(lastSent := Some(now))] + rest, [Packet(records[0].sequence.value, records[0].body)] + out)
      else ([records[0]] + rest, out)
  }
}
