/**
 * The shared receiver: one thread reads every socket, keeps what changes a client's state and
 * hands it in batches through a bounded queue to the async consumer. What it sheds on the way
 * must not have been acknowledged.
 */
module Handoff {
  import opened Packets
  import opened Channels
  import opened Framing
  import W = ReceiveWindow
  import Sequences

  const QUEUE_CAPACITY := 64
  const MAX_PACKETS := 1024
  const MAX_BYTES := 1024 * 1024

  const PING := 3
  const PONG := 4
  const CONNECT_ACCEPT := 6
  const DISCONNECT := 7
  const MTU_CHECK := 9
  const MTU_OK := 10
  const PEER_NOT_FOUND := 14
  const INVALID_PROTOCOL := 15

  /** Which sessions the client runs. */
  datatype Sessions = Sessions(scene: bool, persistence: bool, image: bool)

  // ---- What becomes of a single packet ----

  datatype Verdict = Forward | Ignore | Discard

  /** A channeled packet that the receive window keeps track of. */
  predicate Reliable(bytes: seq<byte>) {
    |bytes| >= 4 && Property(bytes[0]) == CHANNELED && (bytes[3] % 4 == 0 || bytes[3] % 4 == 2)
  }

  /** Payloads of these channels reach the client; fragments of any channel do. */
  predicate Wanted(sessions: Sessions, bytes: seq<byte>)
    requires |bytes| >= 4
  {
    var channel := bytes[3] / 4;
    || bytes[0] >= 128
    || channel in {AUTH_IDENTITY, META_DATA, NET_ID_ASSIGN, NET_ID_ASSIGNS, DELTA_AVATAR}
    || (channel == SCENE && sessions.scene)
    || (channel == STORAGE && sessions.persistence)
    || ((channel == SCENE || channel == DIRECT_SCENE_SERVER) && sessions.image)
  }

  /** `shared_receiver_process_raw`; Ignore is the case that marks the receive window. */
  function Judge(sessions: Sessions, bytes: seq<byte>): (r: Verdict)
    ensures r == Ignore ==> Reliable(bytes)
  {
    if |bytes| < 4 then Discard
    else if Property(bytes[0]) == ACK then (if |bytes| == ACK_SIZE then Forward else Discard)
    else if Property(bytes[0]) == CHANNELED then
      (if Wanted(sessions, bytes) then Forward else if Reliable(bytes) then Ignore else Discard)
    else Discard
  }

  /** The packets of a datagram that are judged one by one. */
  function Inner(bytes: seq<byte>): seq<seq<byte>>
    requires |bytes| > 0
  {
    if Property(bytes[0]) == MERGED then NotUnreliable(MergedWalk(bytes, 1).entries)
    else if Property(bytes[0]) == COMPACT_MERGED then RawPackets(CompactWalk(bytes, 1).entries)
    else [bytes]
  }

  function NotUnreliable(packets: seq<seq<byte>>): seq<seq<byte>> {
    if packets == [] then []
    else if |packets[0]| > 0 && Property(packets[0][0]) == UNRELIABLE then NotUnreliable(packets[1..])
    else [packets[0]] + NotUnreliable(packets[1..])
  }

  function RawPackets(entries: seq<Entry>): seq<seq<byte>> {
    if entries == [] then []
    else if entries[0].Plain? then RawPackets(entries[1..])
    else [entries[0].packet] + RawPackets(entries[1..])
  }

  /** A datagram that is not taken apart: answered on the spot, or forwarded as it is. */
  predicate TakenApart(bytes: seq<byte>)
    requires |bytes| > 0
  {
    Property(bytes[0]) == MERGED || Property(bytes[0]) == COMPACT_MERGED || Property(bytes[0]) == CHANNELED
  }

  predicate AnsweredHere(bytes: seq<byte>)
    requires |bytes| > 0
  {
    Property(bytes[0]) in {PING, PONG, MTU_CHECK, MTU_OK}
  }

  /** A packet that opens or ends a connection and will not be sent again. */
  predicate Control(bytes: seq<byte>) {
    |bytes| > 0 && Property(bytes[0]) in {CONNECT_ACCEPT, DISCONNECT, PEER_NOT_FOUND, INVALID_PROTOCOL}
  }

  // ---- The state machine ----

  /** A packet taken from a socket; `serial` tells copies apart. */
  datatype Copy = Copy(serial: nat, client: nat, bytes: seq<byte>)

  /** Where a copy ended up. */
  datatype Fate = Ignored | CutOff | Shed | Refused | Handled

  datatype End = End(copy: Copy, fate: Fate)

  /** A sequence recorded in a client's receive window. */
  datatype Mark = Mark(serial: nat, client: nat, channelId: byte, sequence: nat)

  /**
   * `batch` is being filled by the receiving thread, `waiting` is a batch it is blocked on,
   * `working` is what the consumer has taken. `ended` and `next` only keep the books.
   */
  datatype State = State(
    batch: seq<Copy>,
    waiting: Option<seq<Copy>>,
    queue: seq<seq<Copy>>,
    working: seq<Copy>,
    marks: seq<Mark>,
    ended: map<nat, End>,
    next: nat)

  const START := State([], None, [], [], [], map[], 0)

  function MarkOf(c: Copy): Mark
    requires Reliable(c.bytes)
  {
    Mark(c.serial, c.client, c.bytes[3], FromLe16(c.bytes[1], c.bytes[2]))
  }

  function Bytes(batch: seq<Copy>): nat {
    if batch == [] then 0 else Bytes(batch[..|batch| - 1]) + |batch[|batch| - 1].bytes|
  }

  predicate Capped(batch: seq<Copy>) { |batch| >= MAX_PACKETS || Bytes(batch) >= MAX_BYTES }

  /** One packet of a datagram; once the batch is full the rest of the datagram is cut off. */
  function Take(s: State, client: nat, bytes: seq<byte>, verdict: Verdict): State
    requires verdict == Ignore ==> Reliable(bytes)
  {
    var c := Copy(s.next, client, bytes);
    match verdict
    case Discard => s
    case Ignore => s.(next := s.next + 1, ended := s.ended[s.next := End(c, Ignored)], marks := s.marks + [MarkOf(c)])
    case Forward =>
      if Capped(s.batch) then s.(next := s.next + 1, ended := s.ended[s.next := End(c, CutOff)])
      else s.(next := s.next + 1, batch := s.batch + [c])
  }

  function TakeAll(s: State, client: nat, sessions: Sessions, packets: seq<seq<byte>>): State
    decreases |packets|
  {
    if packets == [] then s
    else TakeAll(Take(s, client, packets[0], Judge(sessions, packets[0])), client, sessions, packets[1..])
  }

  function Receive(s: State, client: nat, sessions: Sessions, bytes: seq<byte>): State {
    if s.waiting.Some? || Capped(s.batch) || bytes == [] then s
    else if TakenApart(bytes) then TakeAll(s, client, sessions, Inner(bytes))
    else if AnsweredHere(bytes) then s
    else Take(s, client, bytes, Forward)
  }

  predicate HasControl(batch: seq<Copy>) { exists c <- batch :: Control(c.bytes) }

  function EndAll(ended: map<nat, End>, copies: seq<Copy>, fate: Fate): map<nat, End>
    decreases |copies|
  {
    if copies == [] then ended
    else
      var last := copies[|copies| - 1];
      EndAll(ended[last.serial := End(last, fate)], copies[..|copies| - 1], fate)
  }

  /** `enqueue_shared_receive_batch`. */
  function Flush(s: State): State {
    if s.batch == [] || s.waiting.Some? then s
    else if |s.queue| < QUEUE_CAPACITY then s.(batch := [], queue := s.queue + [s.batch])
    else if HasControl(s.batch) then s.(batch := [], waiting := Some(s.batch))
    else s.(batch := [], ended := EndAll(s.ended, s.batch, Shed))
  }

  /** The blocked thread finds a free slot. */
  function Unblock(s: State): State {
    if s.waiting.Some? && |s.queue| < QUEUE_CAPACITY then s.(waiting := None, queue := s.queue + [s.waiting.value]) else s
  }

  function TakeBatch(s: State): State {
    if s.working == [] && s.queue != [] then s.(working := s.queue[0], queue := s.queue[1..]) else s
  }

  /** The consumer's next packet; `current` says whether its client is still the one it came from. */
  function HandleOne(s: State, current: bool): State {
    if s.working == [] then s
    else
      var c := s.working[0];
      var t := s.(working := s.working[1..], ended := s.ended[c.serial := End(c, if current then Handled else Refused)]);
      if current && Reliable(c.bytes) then t.(marks := t.marks + [MarkOf(c)]) else t
  }

  datatype Event =
    | GotDatagram(client: nat, sessions: Sessions, bytes: seq<byte>)
    | Flushed
    | Unblocked
    | TookBatch
    | HandledOne(current: bool)

  function Step(s: State, e: Event): State {
    match e
    case GotDatagram(client, sessions, bytes) => Receive(s, client, sessions, bytes)
    case Flushed => Flush(s)
    case Unblocked => Unblock(s)
    case TookBatch => TakeBatch(s)
    case HandledOne(current) => HandleOne(s, current)
  }

  function Run(events: seq<Event>): State {
    if events == [] then START else Step(Run(events[..|events| - 1]), events[|events| - 1])
  }

  // ---- The books ----

  function Flatten(batches: seq<seq<Copy>>): seq<Copy> {
    if batches == [] then [] else batches[0] + Flatten(batches[1..])
  }

  /** Every copy under way, oldest first. */
  function Pipeline(s: State): seq<Copy> {
    s.working + Flatten(s.queue) + (if s.waiting.Some? then s.waiting.value else []) + s.batch
  }

  predicate Increasing(copies: seq<Copy>) {
    forall i, j :: 0 <= i < j < |copies| ==> copies[i].serial < copies[j].serial
  }

  predicate Carries(copies: seq<Copy>, n: nat) { exists k :: 0 <= k < |copies| && copies[k].serial == n }

  /** Whether the end of a copy entails a mark. */
  predicate MarkedBy(e: End) { Reliable(e.copy.bytes) && (e.fate == Ignored || e.fate == Handled) }

  predicate HasMark(marks: seq<Mark>, n: nat) { exists k :: 0 <= k < |marks| && marks[k].serial == n }

  /** Each copy is under way or has ended, never both; the marks are those of certain ends. */
  ghost predicate Booked(pipe: seq<Copy>, ended: map<nat, End>, marks: seq<Mark>, next: nat) {
    && Increasing(pipe)
    && (forall k :: 0 <= k < |pipe| ==> pipe[k].serial < next)
    && (forall n: nat :: n in ended <==> n < next && !Carries(pipe, n))
    && (forall n <- ended :: ended[n].copy.serial == n && (Control(ended[n].copy.bytes) ==> ended[n].fate == Handled || ended[n].fate == Refused))
    && (forall n <- ended :: ended[n].fate == Ignored ==> Reliable(ended[n].copy.bytes))
    && (forall k :: 0 <= k < |marks| ==>
          marks[k].serial in ended && MarkedBy(ended[marks[k].serial]) && marks[k] == MarkOf(ended[marks[k].serial].copy))
    && (forall n <- ended :: MarkedBy(ended[n]) ==> MarkOf(ended[n].copy) in marks)
  }

  ghost predicate Sound(s: State) {
    && Booked(Pipeline(s), s.ended, s.marks, s.next)
    && |s.queue| <= QUEUE_CAPACITY && |s.batch| <= MAX_PACKETS
    && (s.waiting.Some? ==> s.batch == [])
  }

  lemma {:induction false} FlattenAppend(batches: seq<seq<Copy>>, b: seq<Copy>)
    ensures Flatten(batches + [b]) == Flatten(batches) + b
  {
    var all := batches + [b];
    if batches == [] {
      assert all == [b] && all[1..] == [];
    } else {
      assert all[1..] == batches[1..] + [b];
      FlattenAppend(batches[1..], b);
    }
  }

  /** A copy that is new and goes nowhere. */
  lemma {:induction false} BookEnded(pipe: seq<Copy>, ended: map<nat, End>, marks: seq<Mark>, next: nat, e: End)
    requires Booked(pipe, ended, marks, next) && e.copy.serial == next && !Control(e.copy.bytes)
    requires e.fate == Ignored ==> Reliable(e.copy.bytes)
    ensures Booked(pipe, ended[next := e], if MarkedBy(e) then marks + [MarkOf(e.copy)] else marks, next + 1)
  {
  }

  /** A copy that is new and joins the pipeline. */
  lemma {:induction false} BookForwarded(pipe: seq<Copy>, ended: map<nat, End>, marks: seq<Mark>, next: nat, c: Copy)
    requires Booked(pipe, ended, marks, next) && c.serial == next
    ensures Booked(pipe + [c], ended, marks, next + 1)
  {
    var all := pipe + [c];
    assert all[|pipe|].serial == next;
    forall n: nat
      ensures Carries(all, n) <==> Carries(pipe, n) || n == next
    {
      if Carries(pipe, n) {
        var k :| 0 <= k < |pipe| && pipe[k].serial == n;
        assert all[k].serial == n;
      }
    }
  }

  lemma {:induction false} TakeKeepsSound(s: State, client: nat, bytes: seq<byte>, verdict: Verdict)
    requires Sound(s) && s.waiting.None? && (verdict == Ignore ==> Reliable(bytes))
    requires Control(bytes) && verdict == Forward ==> !Capped(s.batch)
    ensures Sound(Take(s, client, bytes, verdict)) && Take(s, client, bytes, verdict).waiting.None?
  {
    ReliableIsNoControl(bytes);
    hide Booked, Reliable, MarkOf, Control;
    var c, t := Copy(s.next, client, bytes), Take(s, client, bytes, verdict);
    if verdict == Ignore {
      BookEnded(Pipeline(s), s.ended, s.marks, s.next, End(c, Ignored));
    } else if verdict == Forward && Capped(s.batch) {
      BookEnded(Pipeline(s), s.ended, s.marks, s.next, End(c, CutOff));
    } else if verdict == Forward {
      BookForwarded(Pipeline(s), s.ended, s.marks, s.next, c);
      assert Pipeline(t) == Pipeline(s) + [c];
    }
  }

  lemma {:induction false} ReliableIsNoControl(bytes: seq<byte>)
    ensures Reliable(bytes) ==> !Control(bytes)
  {
  }

  /** Inside a merged datagram a packet that opens or ends a connection is not recognised. */
  lemma {:induction false} ControlIsDiscarded(sessions: Sessions, bytes: seq<byte>)
    requires Control(bytes)
    ensures Judge(sessions, bytes) == Discard
  {
  }

  lemma {:induction false} TakeAllKeepsSound(s: State, client: nat, sessions: Sessions, packets: seq<seq<byte>>)
    requires Sound(s) && s.waiting.None?
    ensures Sound(TakeAll(s, client, sessions, packets))
    decreases |packets|
  {
    if packets != [] {
      hide Sound, Judge, Take, Control, Capped;
      if Control(packets[0]) {
        ControlIsDiscarded(sessions, packets[0]);
      }
      TakeKeepsSound(s, client, packets[0], Judge(sessions, packets[0]));
      TakeAllKeepsSound(Take(s, client, packets[0], Judge(sessions, packets[0])), client, sessions, packets[1..]);
    }
  }

  lemma {:induction false} CarriesConcat(a: seq<Copy>, b: seq<Copy>, n: nat)
    ensures Carries(a + b, n) <==> Carries(a, n) || Carries(b, n)
  {
    var all := a + b;
    if Carries(a, n) {
      var k :| 0 <= k < |a| && a[k].serial == n;
      assert all[k].serial == n;
    }
    if Carries(b, n) {
      var k :| 0 <= k < |b| && b[k].serial == n;
      assert all[|a| + k].serial == n;
    }
  }

  /** The newest copy of the pipeline ends without a mark. */
  lemma {:induction false} BookLastShed(front: seq<Copy>, c: Copy, ended: map<nat, End>, marks: seq<Mark>, next: nat)
    requires Booked(front + [c], ended, marks, next) && !Control(c.bytes)
    ensures Booked(front, ended[c.serial := End(c, Shed)], marks, next)
  {
    var pipe := front + [c];
    assert pipe[|front|] == c && forall k :: 0 <= k < |front| ==> front[k] == pipe[k];
    forall n: nat
      ensures Carries(pipe, n) <==> n == c.serial || Carries(front, n)
    {
      CarriesConcat(front, [c], n);
      assert Carries([c], n) <==> [c][0].serial == n;
    }
    assert !Carries(front, c.serial);
    hide MarkOf, Reliable, Control;
  }

  /** The newest part of the pipeline ends without a mark. */
  lemma {:induction false} BookShed(front: seq<Copy>, batch: seq<Copy>, ended: map<nat, End>, marks: seq<Mark>, next: nat)
    requires Booked(front + batch, ended, marks, next) && !HasControl(batch)
    ensures Booked(front, EndAll(ended, batch, Shed), marks, next)
    decreases |batch|
  {
    hide Booked, Control;
    if batch == [] {
      assert front + batch == front;
    } else {
      var rest, c := batch[..|batch| - 1], batch[|batch| - 1];
      assert front + batch == (front + rest) + [c];
      assert c in batch && forall x <- rest :: x in batch;
      BookLastShed(front + rest, c, ended, marks, next);
      BookShed(front, rest, ended[c.serial := End(c, Shed)], marks, next);
    }
  }

  /** The oldest copy of the pipeline ends. */
  lemma {:induction false} BookHandled(pipe: seq<Copy>, ended: map<nat, End>, marks: seq<Mark>, next: nat, fate: Fate)
    requires Booked(pipe, ended, marks, next) && pipe != [] && (fate == Handled || fate == Refused)
    ensures var e := End(pipe[0], fate);
            Booked(pipe[1..], ended[pipe[0].serial := e], if MarkedBy(e) then marks + [MarkOf(e.copy)] else marks, next)
  {
  }

  lemma {:induction false} FlushKeepsSound(s: State)
    requires Sound(s)
    ensures Sound(Flush(s))
  {
    hide Booked;
    FlattenAppend(s.queue, s.batch);
    var t, front := Flush(s), s.working + Flatten(s.queue);
    if s.batch != [] && s.waiting.None? {
      assert Pipeline(s) == front + s.batch;
      if |s.queue| == QUEUE_CAPACITY && !HasControl(s.batch) {
        BookShed(front, s.batch, s.ended, s.marks, s.next);
        assert Pipeline(t) == front;
      } else {
        assert Pipeline(t) == front + s.batch;
      }
    }
  }

  lemma {:induction false} MovesKeepSound(s: State)
    requires Sound(s)
    ensures Sound(Unblock(s)) && Sound(TakeBatch(s))
  {
    hide Booked;
    if s.waiting.Some? {
      FlattenAppend(s.queue, s.waiting.value);
    }
    assert Pipeline(Unblock(s)) == Pipeline(s);
    assert Pipeline(TakeBatch(s)) == Pipeline(s);
  }

  lemma {:induction false} HandleKeepsSound(s: State, current: bool)
    requires Sound(s)
    ensures Sound(HandleOne(s, current))
  {
    hide Booked, Reliable, MarkOf;
    if s.working != [] {
      BookHandled(Pipeline(s), s.ended, s.marks, s.next, if current then Handled else Refused);
      assert Pipeline(HandleOne(s, current)) == Pipeline(s)[1..];
    }
  }

  lemma {:induction false} RunIsSound(events: seq<Event>)
    ensures Sound(Run(events))
    decreases |events|
  {
    if events != [] {
      var s, e := Run(events[..|events| - 1]), events[|events| - 1];
      RunIsSound(events[..|events| - 1]);
      hide Sound, Take, TakeAll, Flush, Unblock, TakeBatch, HandleOne;
      match e
      case GotDatagram(client, sessions, bytes) =>
        if s.waiting.None? && bytes != [] && !Capped(s.batch) {
          if TakenApart(bytes) {
            TakeAllKeepsSound(s, client, sessions, Inner(bytes));
          } else {
            TakeKeepsSound(s, client, bytes, Forward);
          }
        }
      case Flushed => FlushKeepsSound(s);
      case Unblocked => MovesKeepSound(s);
      case TookBatch => MovesKeepSound(s);
      case HandledOne(current) => HandleKeepsSound(s, current);
    }
  }

  /**
   * In every interleaving, every copy is in exactly one place: under way once, or ended once. It
   * is marked for acknowledgement exactly when it is reliable and was ignored on purpose or
   * handled by its client; one that was shed, cut off, refused or is still under way is not.
   */
  lemma {:induction false} NothingShedIsMarked(events: seq<Event>, n: nat)
    requires n < Run(events).next
    ensures var s := Run(events);
            && (n in s.ended <==> !Carries(Pipeline(s), n)) && Increasing(Pipeline(s))
            && (HasMark(s.marks, n) <==> n in s.ended && MarkedBy(s.ended[n]))
  {
    RunIsSound(events);
    var s := Run(events);
    if n in s.ended && MarkedBy(s.ended[n]) {
      var m := MarkOf(s.ended[n].copy);
      var k :| 0 <= k < |s.marks| && s.marks[k] == m;
    }
  }

  /** The copy is under way, or ended as itself. */
  predicate Traced(s: State, c: Copy) { c in Pipeline(s) || (c.serial in s.ended && s.ended[c.serial].copy == c) }

  lemma {:induction false} EndAllTraces(ended: map<nat, End>, copies: seq<Copy>, fate: Fate, c: Copy)
    requires Increasing(copies)
    requires c in copies || (c.serial in ended && ended[c.serial].copy == c && !Carries(copies, c.serial))
    ensures c.serial in EndAll(ended, copies, fate) && EndAll(ended, copies, fate)[c.serial].copy == c
    decreases |copies|
  {
    if copies != [] {
      var rest, last := copies[..|copies| - 1], copies[|copies| - 1];
      assert forall x <- rest :: x in copies;
      assert forall k :: 0 <= k < |rest| ==> rest[k] == copies[k];
      assert last.serial == c.serial ==> c == last;
      EndAllTraces(ended[last.serial := End(last, fate)], rest, fate, c);
    }
  }

  lemma {:induction false} FlushTraces(s: State, c: Copy)
    requires Sound(s) && Traced(s, c)
    ensures Traced(Flush(s), c)
  {
    var front, t := s.working + Flatten(s.queue), Flush(s);
    FlattenAppend(s.queue, s.batch);
    if s.batch != [] && s.waiting.None? {
      assert Pipeline(s) == front + s.batch;
      if |s.queue| == QUEUE_CAPACITY && !HasControl(s.batch) {
        assert Pipeline(t) == front;
        BatchIsIncreasing(front, s.batch);
        if c !in front {
          if c !in s.batch {
            CarriesConcat(front, s.batch, c.serial);
          }
          EndAllTraces(s.ended, s.batch, Shed, c);
        }
      } else {
        assert Pipeline(t) == front + s.batch;
      }
    }
  }

  lemma {:induction false} BatchIsIncreasing(front: seq<Copy>, batch: seq<Copy>)
    requires Increasing(front + batch)
    ensures Increasing(batch)
  {
    assert forall k :: 0 <= k < |batch| ==> batch[k] == (front + batch)[|front| + k];
  }

  lemma {:induction false} TakeTraces(s: State, client: nat, bytes: seq<byte>, verdict: Verdict, c: Copy)
    requires Traced(s, c) && Sound(s) && s.waiting.None? && (verdict == Ignore ==> Reliable(bytes))
    ensures Traced(Take(s, client, bytes, verdict), c)
  {
    var t := Take(s, client, bytes, verdict);
    assert Pipeline(t) == Pipeline(s) || Pipeline(t) == Pipeline(s) + [Copy(s.next, client, bytes)];
  }

  lemma {:induction false} TakeAllTraces(s: State, client: nat, sessions: Sessions, packets: seq<seq<byte>>, c: Copy)
    requires Traced(s, c) && Sound(s) && s.waiting.None?
    ensures Traced(TakeAll(s, client, sessions, packets), c)
    decreases |packets|
  {
    if packets != [] {
      hide Sound, Judge, Take, Control, Capped, Traced;
      if Control(packets[0]) {
        ControlIsDiscarded(sessions, packets[0]);
      }
      TakeKeepsSound(s, client, packets[0], Judge(sessions, packets[0]));
      TakeTraces(s, client, packets[0], Judge(sessions, packets[0]), c);
      TakeAllTraces(Take(s, client, packets[0], Judge(sessions, packets[0])), client, sessions, packets[1..], c);
    }
  }

  lemma {:induction false} MovesTrace(s: State, c: Copy)
    requires Traced(s, c) && Sound(s)
    ensures Traced(Unblock(s), c) && Traced(TakeBatch(s), c)
  {
    hide Sound;
    if s.waiting.Some? {
      FlattenAppend(s.queue, s.waiting.value);
    }
    assert Pipeline(Unblock(s)) == Pipeline(s);
    assert Pipeline(TakeBatch(s)) == Pipeline(s);
  }

  lemma {:induction false} HandledPipeline(s: State, current: bool)
    requires s.working != []
    ensures Pipeline(s) != [] && Pipeline(s)[0] == s.working[0] && Pipeline(HandleOne(s, current)) == Pipeline(s)[1..]
  {
    hide Reliable, Flatten;
  }

  lemma {:induction false} HandleTraces(s: State, current: bool, c: Copy)
    requires Traced(s, c) && Sound(s)
    ensures Traced(HandleOne(s, current), c)
  {
    if s.working != [] {
      OnePlace(s, c.serial);
      HandledPipeline(s, current);
      hide Sound, Pipeline, Reliable, Increasing, Carries;
      HandledTraces(Pipeline(s), s.ended, c);
    }
  }

  lemma {:induction false} OnePlace(s: State, n: nat)
    requires Sound(s)
    ensures Increasing(Pipeline(s)) && (n in s.ended ==> !Carries(Pipeline(s), n))
  {
  }

  lemma {:induction false} HandledTraces(pipe: seq<Copy>, ended: map<nat, End>, c: Copy)
    requires pipe != [] && Increasing(pipe)
    requires c in pipe || (c.serial in ended && !Carries(pipe, c.serial))
    ensures c in pipe ==> c == pipe[0] || c in pipe[1..]
    ensures c !in pipe ==> c.serial != pipe[0].serial
  {
    if c in pipe && c != pipe[0] {
      var k :| 0 <= k < |pipe| && pipe[k] == c;
      assert pipe[1..][k - 1] == c;
    }
  }

  lemma {:induction false} StepTraces(s: State, e: Event, c: Copy)
    requires Traced(s, c) && Sound(s)
    ensures Traced(Step(s, e), c)
  {
    hide Sound, Traced, Take, TakeAll, Flush, Unblock, TakeBatch, HandleOne;
    match e
    case GotDatagram(client, sessions, bytes) =>
      if s.waiting.None? && bytes != [] {
        TakeAllTraces(s, client, sessions, Inner(bytes), c);
        TakeTraces(s, client, bytes, Forward, c);
      }
    case Flushed => FlushTraces(s, c);
    case Unblocked => MovesTrace(s, c);
    case TookBatch => MovesTrace(s, c);
    case HandledOne(current) => HandleTraces(s, current, c);
  }

  lemma {:induction false} RunLast(events: seq<Event>, more: seq<Event>)
    requires more != []
    ensures Run(events + more) == Step(Run(events + more[..|more| - 1]), more[|more| - 1])
  {
    var all := events + more;
    hide Step;
    assert all[..|all| - 1] == events + more[..|more| - 1];
  }

  lemma {:induction false} RunTraces(events: seq<Event>, more: seq<Event>, c: Copy)
    requires Traced(Run(events), c)
    ensures Traced(Run(events + more), c)
    decreases |more|
  {
    if more == [] {
      assert events + more == events;
    } else {
      hide Traced, Step, Sound, Run;
      var front := more[..|more| - 1];
      RunLast(events, more);
      RunTraces(events, front, c);
      RunIsSound(events + front);
      StepTraces(Run(events + front), more[|more| - 1], c);
    }
  }

  /**
   * A datagram that opens or ends a connection and is read from its socket is never lost, however
   * full the queue: in every continuation its copy is under way or was handed to its client, and
   * is refused only because that client is no longer current.
   */
  lemma {:induction false} ControlIsNeverShed(events: seq<Event>, client: nat, sessions: Sessions, bytes: seq<byte>, more: seq<Event>)
    requires Control(bytes) && Run(events).waiting.None? && !Capped(Run(events).batch)
    ensures var c, s := Copy(Run(events).next, client, bytes), Run(events + [GotDatagram(client, sessions, bytes)] + more);
            if c.serial in s.ended then s.ended[c.serial] == End(c, Handled) || s.ended[c.serial] == End(c, Refused)
            else c in Pipeline(s)
  {
    var read := events + [GotDatagram(client, sessions, bytes)];
    var c, s := Copy(Run(events).next, client, bytes), Run(read + more);
    assert read[..|read| - 1] == events;
    assert Run(read).batch == Run(events).batch + [c];
    RunTraces(read, more, c);
    RunIsSound(read + more);
    hide Run, Control;
    assert c in Pipeline(s) ==> Carries(Pipeline(s), c.serial);
  }

  /** Among packets judged one by one, one that opens or ends a connection makes no difference. */
  lemma {:induction false} ControlLeavesNoTrace(s: State, client: nat, sessions: Sessions, before: seq<seq<byte>>, packet: seq<byte>, after: seq<seq<byte>>)
    requires Control(packet)
    ensures TakeAll(s, client, sessions, before + [packet] + after) == TakeAll(s, client, sessions, before + after)
    decreases |before|
  {
    var all := before + [packet] + after;
    if before == [] {
      ControlIsDiscarded(sessions, packet);
      assert all[1..] == after == before + after;
    } else {
      assert all[1..] == before[1..] + [packet] + after;
      assert (before + after)[1..] == before[1..] + after;
      ControlLeavesNoTrace(Take(s, client, before[0], Judge(sessions, before[0])), client, sessions, before[1..], packet, after);
    }
  }

  lemma {:induction false} NotUnreliableConcat(a: seq<seq<byte>>, b: seq<seq<byte>>)
    ensures NotUnreliable(a + b) == NotUnreliable(a) + NotUnreliable(b)
    decreases |a|
  {
    if a == [] {
      assert a + b == b;
    } else {
      assert (a + b)[1..] == a[1..] + b && (a + b)[0] == a[0];
      NotUnreliableConcat(a[1..], b);
    }
  }

  /** What is judged of a merged datagram. */
  lemma {:induction false} InnerOfMerged(first: byte, packets: seq<seq<byte>>)
    requires Property(first) == MERGED && forall k :: 0 <= k < |packets| ==> LegalMerged(packets[k])
    ensures Inner([first] + EncodedMerged(packets)) == NotUnreliable(packets)
  {
    MergedRoundTrip([first], packets);
  }

  lemma {:induction false} KeptControl(before: seq<seq<byte>>, packet: seq<byte>, after: seq<seq<byte>>)
    requires Control(packet)
    ensures NotUnreliable(before + [packet] + after) == NotUnreliable(before) + [packet] + NotUnreliable(after)
    ensures NotUnreliable(before + after) == NotUnreliable(before) + NotUnreliable(after)
  {
    NotUnreliableConcat(before + [packet], after);
    NotUnreliableConcat(before, [packet]);
    NotUnreliableConcat(before, after);
    assert [packet][1..] == [];
  }

  /**
   * The same packet inside a merged datagram is dropped without a trace, although the client's own
   * parser would act on it: the datagram has the effect of the one without it.
   */
  lemma {:induction false} MergedControlIsLost(s: State, client: nat, sessions: Sessions, first: byte,
                                               before: seq<seq<byte>>, packet: seq<byte>, after: seq<seq<byte>>)
    requires Property(first) == MERGED && Control(packet)
    requires forall k :: 0 <= k < |before + [packet] + after| ==> LegalMerged((before + [packet] + after)[k])
    ensures forall k :: 0 <= k < |before + after| ==> LegalMerged((before + after)[k])
    ensures Receive(s, client, sessions, [first] + EncodedMerged(before + [packet] + after))
            == Receive(s, client, sessions, [first] + EncodedMerged(before + after))
  {
    var all := before + [packet] + after;
    forall k | 0 <= k < |before + after|
      ensures LegalMerged((before + after)[k])
    {
      assert (before + after)[k] == all[if k < |before| then k else k + 1];
    }
    InnerOfMerged(first, all);
    InnerOfMerged(first, before + after);
    KeptControl(before, packet, after);
    hide Inner, TakeAll, Control, EncodedMerged, NotUnreliable, LegalMerged, Capped;
    ControlLeavesNoTrace(s, client, sessions, NotUnreliable(before), packet, NotUnreliable(after));
  }

  // ---- The receive windows ----

  function ClosedWindow(): (r: W.State)
    ensures r.Valid() && forall k :: 0 <= k < Sequences.WINDOW ==> !r.received[k]
  {
    W.State(seq(Sequences.WINDOW, _ => false), 0, false, false)
  }

  /** A client's receive window on a channel: `mark_new` for each of its marks in turn. */
  function Window(marks: seq<Mark>, client: nat, channelId: byte): (r: W.State)
    ensures r.Valid()
  {
    if marks == [] then ClosedWindow()
    else
      var m, before := marks[|marks| - 1], Window(marks[..|marks| - 1], client, channelId);
      if m.client == client && m.channelId == channelId then W.MarkNew(before, m.sequence).0 else before
  }

  /** The one sequence in a window that has this slot: the one its acknowledgement bit stands for. */
  function SequenceAt(windowStart: nat, slot: nat): nat {
    (windowStart + (slot - windowStart) % Sequences.WINDOW) % Sequences.MAX_SEQUENCE
  }

  /** The mark is of this client and channel and of this very sequence. */
  predicate MarkedAt(m: Mark, client: nat, channelId: byte, sequence: nat) {
    m.client == client && m.channelId == channelId && m.sequence == sequence
  }

  /** Moving the window on by one changes what the one slot that leaves it stands for, and no other. */
  lemma {:induction false} SequenceStays(windowStart: nat, slot: nat)
    requires slot < Sequences.WINDOW && windowStart < Sequences.MAX_SEQUENCE && slot != windowStart % Sequences.WINDOW
    ensures SequenceAt((windowStart + 1) % Sequences.MAX_SEQUENCE, slot) == SequenceAt(windowStart, slot)
  {
    var next := (windowStart + 1) % Sequences.MAX_SEQUENCE;
    AheadOf(windowStart, slot);
    AheadOf(next, slot);
    NextSlot(windowStart);
    StepsAdd(windowStart, (slot - next) % Sequences.WINDOW);
  }

  lemma {:induction false} NextSlot(windowStart: nat)
    ensures var at := windowStart % Sequences.WINDOW;
            (windowStart + 1) % Sequences.MAX_SEQUENCE % Sequences.WINDOW == if at == Sequences.WINDOW - 1 then 0 else at + 1
  {
  }

  lemma {:induction false} StepsAdd(start: nat, more: nat)
    ensures ((start + 1) % Sequences.MAX_SEQUENCE + more) % Sequences.MAX_SEQUENCE == (start + 1 + more) % Sequences.MAX_SEQUENCE
  {
  }

  lemma {:induction false} AheadOf(windowStart: nat, slot: nat)
    requires slot < Sequences.WINDOW
    ensures var at := windowStart % Sequences.WINDOW;
            (slot - windowStart) % Sequences.WINDOW == if at <= slot then slot - at else slot - at + Sequences.WINDOW
  {
  }

  /** A bit that outlasts a shift was set before it and stands for the same sequence. */
  lemma {:induction false} ShiftKeepsMeaning(s: W.State, shift: nat, slot: nat)
    requires s.Valid() && slot < Sequences.WINDOW && W.Shift(s, shift).received[slot]
    ensures s.received[slot] && SequenceAt(W.Shift(s, shift).windowStart, slot) == SequenceAt(s.windowStart, slot)
    decreases shift
  {
    hide SequenceAt;
    if shift > 0 {
      var t := W.ShiftedOne(s);
      ShiftKeepsMeaning(t, shift - 1, slot);
      SequenceStays(s.windowStart, slot);
    }
  }

  lemma {:induction false} ShiftMoves(s: W.State, shift: nat)
    requires s.Valid()
    ensures W.Shift(s, shift).windowStart == (s.windowStart + shift) % Sequences.MAX_SEQUENCE
    decreases shift
  {
    if shift > 0 {
      ShiftMoves(W.ShiftedOne(s), shift - 1);
      StepsAdd(s.windowStart, shift - 1);
    }
  }

  lemma {:induction false} AheadIs(sequence: nat, start: nat)
    requires sequence < Sequences.MAX_SEQUENCE && start < Sequences.MAX_SEQUENCE && Sequences.RelativeRust(sequence, start) >= 0
    ensures sequence == (start + Sequences.RelativeRust(sequence, start)) % Sequences.MAX_SEQUENCE
  {
  }

  /** A sequence less than a window ahead is the one its slot stands for. */
  lemma {:induction false} SlotStandsFor(start: nat, ahead: nat)
    requires start < Sequences.MAX_SEQUENCE && ahead < Sequences.WINDOW
    ensures var sequence := (start + ahead) % Sequences.MAX_SEQUENCE; SequenceAt(start, sequence % Sequences.WINDOW) == sequence
  {
  }

  lemma {:induction false} LandsLast(start: nat, relate: nat)
    requires relate >= Sequences.WINDOW
    ensures ((start + (relate - Sequences.WINDOW + 1)) % Sequences.MAX_SEQUENCE + (Sequences.WINDOW - 1)) % Sequences.MAX_SEQUENCE
            == (start + relate) % Sequences.MAX_SEQUENCE
  {
  }

  /** After a mark each bit is that of the sequence just marked, or was set before and means the same. */
  lemma {:induction false} MarkMeans(s: W.State, sequence: nat, slot: nat)
    requires s.Valid() && slot < Sequences.WINDOW && W.MarkNew(s, sequence).0.received[slot]
    ensures var t := W.MarkNew(s, sequence).0;
            || sequence == SequenceAt(t.windowStart, slot)
            || (s.received[slot] && SequenceAt(t.windowStart, slot) == SequenceAt(s.windowStart, slot))
  {
    var relate := Sequences.RelativeRust(sequence, s.windowStart);
    if sequence < Sequences.MAX_SEQUENCE && 0 <= relate < 2 * Sequences.WINDOW {
      AheadIs(sequence, s.windowStart);
      hide Sequences.RelativeRust, SequenceAt, W.Shift;
      var armed := s.(started := true, dirty := true);
      if relate < Sequences.WINDOW {
        SlotStandsFor(s.windowStart, relate);
      } else {
        var shift := relate - Sequences.WINDOW + 1;
        var slid := W.Shift(armed, shift);
        ShiftMoves(armed, shift);
        LandsLast(s.windowStart, relate);
        SlotStandsFor(slid.windowStart, Sequences.WINDOW - 1);
        if slot != sequence % Sequences.WINDOW {
          ShiftKeepsMeaning(armed, shift, slot);
        }
      }
    }
  }

  lemma {:induction false} BitHasMark(marks: seq<Mark>, client: nat, channelId: byte, slot: nat) returns (k: nat)
    requires slot < Sequences.WINDOW && Window(marks, client, channelId).received[slot]
    ensures k < |marks| && MarkedAt(marks[k], client, channelId, SequenceAt(Window(marks, client, channelId).windowStart, slot))
    decreases |marks|
  {
    hide SequenceAt, W.MarkNew;
    var last := |marks| - 1;
    var m, before := marks[last], Window(marks[..last], client, channelId);
    var ours := m.client == client && m.channelId == channelId;
    if ours {
      MarkMeans(before, m.sequence, slot);
    }
    if ours && m.sequence == SequenceAt(Window(marks, client, channelId).windowStart, slot) {
      k := last;
    } else {
      k := BitHasMark(marks[..last], client, channelId, slot);
    }
  }

  /**
   * An acknowledgement bit in a client's window is owed to a copy of that very client, channel and
   * sequence that was ignored on purpose or handled: no packet that was shed, cut off, refused or
   * is still under way is ever acknowledged for another's sake.
   */
  lemma {:induction false} AcknowledgedWasProcessed(events: seq<Event>, client: nat, channelId: byte, slot: nat) returns (n: nat)
    requires slot < Sequences.WINDOW && Window(Run(events).marks, client, channelId).received[slot]
    ensures n in Run(events).ended
    ensures var e, window := Run(events).ended[n], Window(Run(events).marks, client, channelId);
            MarkedBy(e) && MarkedAt(MarkOf(e.copy), client, channelId, SequenceAt(window.windowStart, slot))
  {
    var s := Run(events);
    var k := BitHasMark(s.marks, client, channelId, slot);
    RunIsSound(events);
    hide SequenceAt, Window, Run;
    n := s.marks[k].serial;
  }
}
