/**
 * The Rust client's pending_reliable queue: one VecDeque shared by 256 channels, with a sequence
 * counter per channel. The methods are proved against whole-queue functions, and those are shown
 * to act on each channel exactly as the single-channel sender of QueueSender.dfy does.
 */
module ReliableQueue {
  import opened Sequences
  import opened Packets
  import Q = QueueSender

  const CHANNELS := 256

  datatype Entry = Entry(channel: byte, record: Q.Record)

  /** The records of one channel, in queue order. */
  function Project(entries: seq<Entry>, channel: byte): seq<Q.Record> {
    if entries == [] then []
    else if entries[0].channel == channel then [entries[0].record] + Project(entries[1..], channel)
    else Project(entries[1..], channel)
  }

  function Others(entries: seq<Entry>, channel: byte): seq<Entry> {
    if entries == [] then []
    else if entries[0].channel != channel then [entries[0]] + Others(entries[1..], channel)
    else Others(entries[1..], channel)
  }

  lemma {:induction false} ProjectConcat(a: seq<Entry>, b: seq<Entry>, channel: byte)
    ensures Project(a + b, channel) == Project(a, channel) + Project(b, channel)
  {
    if a == [] {
      assert a + b == b;
    } else {
      assert (a + b)[1..] == a[1..] + b;
      ProjectConcat(a[1..], b, channel);
      var first := if a[0].channel == channel then [a[0].record] else [];
      assert first + (Project(a[1..], channel) + Project(b, channel)) == (first + Project(a[1..], channel)) + Project(b, channel);
    }
  }

  lemma {:induction false} ProjectAppend(entries: seq<Entry>, e: Entry, channel: byte)
    ensures Project(entries + [e], channel)
            == if e.channel == channel then Project(entries, channel) + [e.record] else Project(entries, channel)
  {
    ProjectConcat(entries, [e], channel);
    assert Project([e], channel) == if e.channel == channel then [e.record] else [];
  }

  lemma {:induction false} OldestAppend(records: seq<Q.Record>, r: Q.Record)
    ensures Q.Oldest(records + [r]) == if Q.Oldest(records).Some? then Q.Oldest(records) else r.sequence
  {
    if records == [] {
      assert records + [r] == [r];
      assert Q.Oldest([r][1..]) == None;
    } else {
      assert (records + [r])[1..] == records[1..] + [r];
      OldestAppend(records[1..], r);
    }
  }

  lemma {:induction false} UnsequencedAppend(records: seq<Q.Record>, r: Q.Record)
    ensures Q.HasUnsequenced(records + [r]) == (Q.HasUnsequenced(records) || r.sequence.None?)
  {
    if r.sequence.None? {
      assert r in records + [r];
    }
    if x :| x in records && x.sequence.None? {
      assert x in records + [r];
    }
  }

  /** What the third pass of promote_reliable_window leaves, and what it hands out to be sent. */
  function AssignAll(entries: seq<Entry>, next: seq<nat>, capacity: seq<nat>, now: int): (r: (seq<Entry>, seq<nat>, seq<Entry>))
    requires |next| == |capacity| == CHANNELS
    ensures |r.0| == |entries| && |r.1| == CHANNELS
  {
    if entries == [] then ([], next, [])
    else
      var e, c := entries[0], entries[0].channel;
      if e.record.sequence.Some? || capacity[c] == 0 then
        var (rest, last, promoted) := AssignAll(entries[1..], next, capacity, now);
        ([e] + rest, last, promoted)
      else
        var f := e.(record := e.record.(sequence := Some(next[c]), lastSent := Some(now)));
        var (rest, last, promoted) :=
          AssignAll(entries[1..], next[c := (next[c] + 1) % MAX_SEQUENCE], capacity[c := capacity[c] - 1], now);
        ([f] + rest, last, [f] + promoted)
  }

  /** Per channel the third pass is the single-channel one. */
  lemma {:induction false} AssignAllProjects(entries: seq<Entry>, next: seq<nat>, capacity: seq<nat>, now: int, channel: byte)
    requires |next| == |capacity| == CHANNELS
    ensures var (r, last, promoted) := AssignAll(entries, next, capacity, now);
            var (records, final) := Q.Assign(Project(entries, channel), next[channel], capacity[channel], now);
            && Project(r, channel) == records && last[channel] == final
            && Sequenced(Project(promoted, channel)) == Q.Promoted(Project(entries, channel), records)
  {
    if entries != [] {
      var e, c := entries[0], entries[0].channel;
      var (r, last, promoted) := AssignAll(entries, next, capacity, now);
      if e.record.sequence.Some? || capacity[c] == 0 {
        AssignAllProjects(entries[1..], next, capacity, now, channel);
        assert r[1..] == AssignAll(entries[1..], next, capacity, now).0;
      } else {
        var next', capacity' := next[c := (next[c] + 1) % MAX_SEQUENCE], capacity[c := capacity[c] - 1];
        AssignAllProjects(entries[1..], next', capacity', now, channel);
        var (rest, _, more) := AssignAll(entries[1..], next', capacity', now);
        assert r[1..] == rest && promoted[1..] == more;
      }
      if c == channel {
        assert Project(entries, channel)[1..] == Project(entries[1..], channel);
        assert Project(r, channel)[1..] == Project(r[1..], channel);
      }
    }
  }

  function Sequenced(records: seq<Q.Record>): seq<Packet> {
    if records == [] then []
    else if records[0].sequence.Some? then
      [Packet(records[0].sequence.value, records[0].body)] + Sequenced(records[1..])
    else Sequenced(records[1..])
  }

  function RetainAll(entries: seq<Entry>, channel: byte, ack: AckPacket): seq<Entry> {
    if entries == [] then []
    else if entries[0].channel == channel && Q.Acknowledges(ack, entries[0].record) then
      RetainAll(entries[1..], channel, ack)
    else [entries[0]] + RetainAll(entries[1..], channel, ack)
  }

  /** An acknowledgement acts on its own channel only, and there as on a single-channel queue. */
  lemma {:induction false} RetainAllProjects(entries: seq<Entry>, channel: byte, ack: AckPacket)
    ensures Project(RetainAll(entries, channel, ack), channel) == Q.Retain(Project(entries, channel), ack)
    ensures Others(RetainAll(entries, channel, ack), channel) == Others(entries, channel)
  {
    if entries != [] {
      var kept := RetainAll(entries, channel, ack);
      var rest := RetainAll(entries[1..], channel, ack);
      RetainAllProjects(entries[1..], channel, ack);
      if kept == [entries[0]] + rest {
        assert kept[1..] == rest;
      } else {
        assert kept == rest;
      }
      if entries[0].channel == channel {
        assert Project(entries, channel)[1..] == Project(entries[1..], channel);
      }
    }
  }

  lemma {:induction false} OthersDetermineProjections(a: seq<Entry>, b: seq<Entry>, channel: byte, other: byte)
    requires Others(a, channel) == Others(b, channel) && other != channel
    ensures Project(a, other) == Project(b, other)
  {
    ProjectOfOthers(a, channel, other);
    ProjectOfOthers(b, channel, other);
  }

  lemma {:induction false} ProjectOfOthers(entries: seq<Entry>, channel: byte, other: byte)
    requires other != channel
    ensures Project(Others(entries, channel), other) == Project(entries, other)
  {
    if entries != [] {
      ProjectOfOthers(entries[1..], channel, other);
      var rest := Others(entries[1..], channel);
      if entries[0].channel != channel {
        assert Others(entries, channel)[1..] == rest;
      } else {
        assert Others(entries, channel) == rest;
      }
    }
  }

  /** The third pass, stopped half way, has this left to do. */
  ghost predicate Resumes(done: seq<Entry>, promoted: seq<Entry>, entries: seq<Entry>, next: seq<nat>, capacity: seq<nat>,
                          now: int, end: seq<Entry>, last: seq<nat>, out: seq<Entry>)
  {
    && |next| == |capacity| == CHANNELS
    && var (rest, final, more) := AssignAll(entries, next, capacity, now);
       end == done + rest && last == final && out == promoted + more
  }

  lemma {:induction false} NumberStep(done: seq<Entry>, promoted: seq<Entry>, entries: seq<Entry>, next: seq<nat>, capacity: seq<nat>,
                   now: int, end: seq<Entry>, last: seq<nat>, out: seq<Entry>)
    requires entries != [] && Resumes(done, promoted, entries, next, capacity, now, end, last, out)
    ensures var e, c := entries[0], entries[0].channel;
            if e.record.sequence.Some? || capacity[c] == 0 then
              Resumes(done + [e], promoted, entries[1..], next, capacity, now, end, last, out)
            else
              var f := e.(record := e.record.(sequence := Some(next[c]), lastSent := Some(now)));
              Resumes(done + [f], promoted + [f], entries[1..], next[c := (next[c] + 1) % MAX_SEQUENCE],
                      capacity[c := capacity[c] - 1], now, end, last, out)
  {
    var e, c := entries[0], entries[0].channel;
    if e.record.sequence.Some? || capacity[c] == 0 {
      var (rest, final, more) := AssignAll(entries[1..], next, capacity, now);
      assert done + ([e] + rest) == (done + [e]) + rest;
    } else {
      var f := e.(record := e.record.(sequence := Some(next[c]), lastSent := Some(now)));
      var (rest, final, more) :=
        AssignAll(entries[1..], next[c := (next[c] + 1) % MAX_SEQUENCE], capacity[c := capacity[c] - 1], now);
      assert done + ([f] + rest) == (done + [f]) + rest;
      assert promoted + ([f] + more) == (promoted + [f]) + more;
    }
  }

  lemma {:induction false} NothingDone(entries: seq<Entry>, next: seq<nat>, capacity: seq<nat>, now: int)
    requires |next| == |capacity| == CHANNELS
    ensures var (end, last, out) := AssignAll(entries, next, capacity, now);
            Resumes([], [], entries, next, capacity, now, end, last, out)
  {
    hide AssignAll;
    var (end, last, out) := AssignAll(entries, next, capacity, now);
    assert [] + end == end && [] + out == out;
  }

  lemma {:induction false} AllDone(done: seq<Entry>, promoted: seq<Entry>, next: seq<nat>, capacity: seq<nat>, now: int,
                                  end: seq<Entry>, last: seq<nat>, out: seq<Entry>)
    requires Resumes(done, promoted, [], next, capacity, now, end, last, out)
    ensures end == done && last == next && out == promoted
  {
    assert done + [] == done && promoted + [] == promoted;
  }

  class PendingReliable {
    var pending: seq<Entry>
    const sequences: array<nat>

    ghost predicate Valid()
      reads this, sequences
    {
      sequences.Length == CHANNELS && forall c :: 0 <= c < CHANNELS ==> sequences[c] < MAX_SEQUENCE
    }

    /** One channel of the queue. */
    ghost function Channel(channel: byte): Q.Queue
      requires Valid()
      reads this, sequences
    {
      Q.Queue(Project(pending, channel), sequences[channel])
    }

    constructor ()
      ensures Valid() && fresh(sequences)
      ensures forall c: byte :: Channel(c) == Q.Queue([], 0)
    {
      pending := [];
      sequences := new nat[CHANNELS](i => 0);
    }

    /** pending.extend under the queue lock. */
    method Extend(channel: byte, bodies: seq<Body>)
      requires Valid()
      modifies this`pending
      ensures Valid()
      ensures Channel(channel) ==
              Q.Queue(old(Channel(channel)).records + seq(|bodies|, k requires 0 <= k < |bodies| => Q.Record(None, bodies[k], None)),
                      old(sequences[channel]))
      ensures forall c: byte | c != channel :: Channel(c) == old(Channel(c))
    {
      ghost var fresh' := seq(|bodies|, k requires 0 <= k < |bodies| => Q.Record(None, bodies[k], None));
      for i := 0 to |bodies|
        invariant Project(pending, channel) == old(Project(pending, channel)) + fresh'[..i]
        invariant forall c: byte | c != channel :: Project(pending, c) == old(Project(pending, c))
      {
        var e := Entry(channel, Q.Record(None, bodies[i], None));
        forall c: byte
          ensures Project(pending + [e], c) == if c == channel then Project(pending, c) + [e.record] else Project(pending, c)
        {
          ProjectAppend(pending, e, c);
        }
        pending := pending + [e];
        assert fresh'[..i + 1] == fresh'[..i] + [e.record];
      }
      assert fresh'[..|bodies|] == fresh';
    }

    /** First pass: which channels have unsequenced records, and the oldest sequence of each. */
    method Survey() returns (queued: array<bool>, oldest: array<Option<nat>>)
      ensures fresh(queued) && fresh(oldest) && queued.Length == oldest.Length == CHANNELS
      ensures forall c: byte :: queued[c] == Q.HasUnsequenced(Project(pending, c)) && oldest[c] == Q.Oldest(Project(pending, c))
    {
      queued := new bool[CHANNELS](i => false);
      oldest := new Option<nat>[CHANNELS](i => None);
      for i := 0 to |pending|
        invariant forall c: byte :: queued[c] == Q.HasUnsequenced(Project(pending[..i], c))
        invariant forall c: byte :: oldest[c] == Q.Oldest(Project(pending[..i], c))
      {
        var e := pending[i];
        assert pending[..i + 1] == pending[..i] + [e];
        forall c: byte
          ensures Project(pending[..i + 1], c)
                  == if e.channel == c then Project(pending[..i], c) + [e.record] else Project(pending[..i], c)
        {
          ProjectAppend(pending[..i], e, c);
        }
        OldestAppend(Project(pending[..i], e.channel), e.record);
        UnsequencedAppend(Project(pending[..i], e.channel), e.record);
        if e.record.sequence.Some? {
          if oldest[e.channel].None? {
            oldest[e.channel] := e.record.sequence;
          }
        } else {
          queued[e.channel] := true;
        }
      }
      assert pending[..|pending|] == pending;
    }

    /** Second pass: the next sequence and the window room of every channel that needs them. */
    method Room(queued: array<bool>, oldest: array<Option<nat>>) returns (next: array<nat>, capacity: array<nat>)
      requires Valid() && queued.Length == oldest.Length == CHANNELS
      ensures fresh(next) && fresh(capacity) && next.Length == capacity.Length == CHANNELS && next != capacity
      ensures forall c: byte :: Q.Oldest(Project(pending, c)) == oldest[c] ==>
                capacity[c] == (if queued[c] then Q.Capacity(Channel(c)) else 0) && (queued[c] ==> next[c] == sequences[c])
    {
      next := new nat[CHANNELS](i => 0);
      capacity := new nat[CHANNELS](i => 0);
      for c := 0 to CHANNELS
        invariant forall d: byte | d < c :: Q.Oldest(Project(pending, d)) == oldest[d] ==>
                    capacity[d] == (if queued[d] then Q.Capacity(Channel(d)) else 0) && (queued[d] ==> next[d] == sequences[d])
        invariant forall d: byte | d >= c :: capacity[d] == 0
      {
        if queued[c] {
          var sequence := sequences[c] % MAX_SEQUENCE;
          next[c] := sequence;
          var start := if oldest[c].Some? then oldest[c].value else sequence;
          var span := RelativeRust(sequence, start);
          if 0 <= span <= WINDOW {
            capacity[c] := WINDOW - span;
          }
        }
      }
    }

    /** Third pass: number records in queue order for as long as their channel has room. */
    method Number(next: array<nat>, capacity: array<nat>, now: int) returns (promoted: seq<Entry>, changed: array<bool>)
      requires next.Length == capacity.Length == CHANNELS && next != capacity
      modifies this`pending, next, capacity
      ensures fresh(changed) && changed.Length == CHANNELS
      ensures (pending, next[..], promoted) == AssignAll(old(pending), old(next[..]), old(capacity[..]), now)
      ensures forall c: byte :: (!changed[c] ==> next[c] == old(next[c])) && (changed[c] ==> old(capacity[c]) > 0)
      ensures forall c: byte :: changed[c] ==> next[c] < MAX_SEQUENCE
    {
      hide AssignAll;
      promoted := [];
      changed := new bool[CHANNELS](i => false);
      var done: seq<Entry> := [];
      ghost var all := pending;
      ghost var (end, last, out) := AssignAll(all, next[..], capacity[..], now);
      assert all[0..] == all;
      NothingDone(all, next[..], capacity[..], now);
      for i := 0 to |pending|
        invariant pending == all
        invariant Resumes(done, promoted, all[i..], next[..], capacity[..], now, end, last, out)
        invariant forall c: byte :: !changed[c] ==> next[c] == old(next[c]) && capacity[c] == old(capacity[c])
        invariant forall c: byte :: changed[c] ==> old(capacity[c]) > 0 && next[c] < MAX_SEQUENCE
      {
        var e := pending[i];
        var c := e.channel;
        assert all[i..][0] == e && all[i..][1..] == all[i + 1..];
        NumberStep(done, promoted, all[i..], next[..], capacity[..], now, end, last, out);
        if e.record.sequence.Some? || capacity[c] == 0 {
          done := done + [e];
        } else {
          ghost var next0, capacity0 := next[..], capacity[..];
          var sequence := next[c];
          next[c] := (sequence + 1) % MAX_SEQUENCE;
          capacity[c] := capacity[c] - 1;
          changed[c] := true;
          var f := e.(record := e.record.(sequence := Some(sequence), lastSent := Some(now)));
          assert next[..] == next0[c := (next0[c] + 1) % MAX_SEQUENCE];
          assert capacity[..] == capacity0[c := capacity0[c] - 1];
          done := done + [f];
          promoted := promoted + [f];
        }
      }
      assert all[|all|..] == [];
      AllDone(done, promoted, next[..], capacity[..], now, end, last, out);
      pending := done;
    }

    /** Last pass: channels that numbered something keep their next sequence. */
    method StoreNext(next: array<nat>, changed: array<bool>)
      requires Valid() && next.Length == changed.Length == CHANNELS && next != sequences
      requires forall c: byte :: changed[c] ==> next[c] < MAX_SEQUENCE
      modifies sequences
      ensures Valid()
      ensures forall c: byte :: sequences[c] == if changed[c] then next[c] else old(sequences[c])
    {
      for c := 0 to CHANNELS
        invariant Valid()
        invariant forall d: byte | d < c :: sequences[d] == if changed[d] then next[d] else old(sequences[d])
        invariant forall d: byte | d >= c :: sequences[d] == old(sequences[d])
      {
        if changed[c] {
          sequences[c] := next[c];
        }
      }
    }

    /**
     * promote_reliable_window: every channel is promoted exactly as if it had a queue of its
     * own, and what is handed out to be sent is what got a sequence just now.
     */
    method Promote(now: int) returns (promoted: seq<Entry>)
      requires Valid()
      modifies this`pending, sequences
      ensures Valid()
      ensures forall c: byte :: Channel(c) == Q.Promote(old(Channel(c)), now)
      ensures forall c: byte :: |Channel(c).records| == |old(Channel(c)).records|
                && Sequenced(Project(promoted, c)) == Q.Promoted(old(Channel(c)).records, Channel(c).records)
    {
      ghost var before := pending;
      var queued, oldest := Survey();
      var next, capacity := Room(queued, oldest);
      ghost var next0, capacity0 := next[..], capacity[..];
      assert forall c: byte :: capacity0[c] == if queued[c] then Q.Capacity(old(Channel(c))) else 0;
      var changed;
      promoted, changed := Number(next, capacity, now);
      StoreNext(next, changed);
      forall c: byte
        ensures Channel(c) == Q.Promote(old(Channel(c)), now)
        ensures |Channel(c).records| == |old(Channel(c)).records|
        ensures Sequenced(Project(promoted, c)) == Q.Promoted(old(Channel(c)).records, Channel(c).records)
      {
        ghost var q := old(Channel(c));
        assert queued[c] == Q.HasUnsequenced(q.records) && q.next < MAX_SEQUENCE;
        PromotedPerChannel(q, next0[c], capacity0[c], now);
        AssignAllProjects(before, next0, capacity0, now, c);
      }
    }

    /** The oldest sequence pending on a channel, found by scanning the queue. */
    method FindOldest(channel: byte) returns (oldest: Option<nat>)
      ensures oldest == Q.Oldest(Project(pending, channel))
    {
      oldest := None;
      for i := 0 to |pending|
        invariant oldest == None && Q.Oldest(Project(pending[..i], channel)) == None
      {
        var e := pending[i];
        assert pending[..i + 1] == pending[..i] + [e];
        ProjectAppend(pending[..i], e, channel);
        OldestAppend(Project(pending[..i], channel), e.record);
        if e.channel == channel && e.record.sequence.Some? {
          oldest := e.record.sequence;
          OldestIsFirst(pending, i + 1, channel);
          return;
        }
      }
      assert pending[..|pending|] == pending;
    }

    /**
     * process_ack without the pump that follows it: the acknowledged channel sees it exactly as
     * a queue of its own would, and no entry of any other channel is touched or moved.
     */
    method ProcessAck(channel: byte, ack: AckPacket)
      requires Valid()
      modifies this`pending
      ensures Valid()
      ensures Channel(channel) == Q.ProcessAck(old(Channel(channel)), ack)
      ensures Others(pending, channel) == old(Others(pending, channel))
      ensures forall c: byte | c != channel :: Channel(c) == old(Channel(c))
    {
      if ack.size != ACK_SIZE {
        return;
      }
      var start := FindOldest(channel);
      if start.None? || ack.sequence >= MAX_SEQUENCE {
        return;
      }
      var windowRel := RelativeRust(start.value, ack.sequence);
      if windowRel < 0 || windowRel >= WINDOW {
        return;
      }
      ghost var all := pending;
      var kept: seq<Entry> := [];
      assert all[0..] == all && kept + RetainAll(all, channel, ack) == RetainAll(all, channel, ack);
      for i := 0 to |pending|
        invariant pending == all && kept + RetainAll(all[i..], channel, ack) == RetainAll(all, channel, ack)
      {
        var e := pending[i];
        ghost var rest := RetainAll(all[i + 1..], channel, ack);
        assert all[i..][0] == e && all[i..][1..] == all[i + 1..];
        if !(e.channel == channel && Q.Acknowledges(ack, e.record)) {
          assert kept + ([e] + rest) == (kept + [e]) + rest;
          kept := kept + [e];
        }
      }
      assert all[|all|..] == [] && kept + [] == kept;
      pending := kept;
      RetainAllProjects(all, channel, ack);
      forall c: byte | c != channel
        ensures Project(pending, c) == Project(all, c)
      {
        OthersDetermineProjections(pending, all, channel, c);
      }
    }

    /** resend_reliable up to the socket writes: what is due, marked as sent now. */
    method Resend(now: int) returns (due: seq<Entry>)
      requires Valid()
      modifies this`pending
      ensures Valid()
      ensures forall c: byte :: Channel(c) == old(Channel(c)).(records := Q.Resend(old(Channel(c)).records, now).0)
      ensures forall c: byte :: Sequenced(Project(due, c)) == Q.Resend(old(Channel(c)).records, now).1
    {
      ghost var all := pending;
      ghost var (end, out) := ResendAll(all, now);
      var done: seq<Entry> := [];
      due := [];
      assert all[0..] == all && done + end == end && due + out == out;
      for i := 0 to |pending|
        invariant pending == all
        invariant done + ResendAll(all[i..], now).0 == end && due + ResendAll(all[i..], now).1 == out
      {
        var e := pending[i];
        assert all[i..][0] == e && all[i..][1..] == all[i + 1..];
        ghost var (rest, more) := ResendAll(all[i + 1..], now);
        if Q.Due(e.record, now) {
          e := e.(record := e.record.(lastSent := Some(now)));
          assert due + ([e] + more) == (due + [e]) + more;
          due := due + [e];
        }
        assert done + ([e] + rest) == (done + [e]) + rest;
        done := done + [e];
      }
      assert all[|all|..] == [] && done + [] == done && due + [] == due;
      pending := done;
      forall c: byte
        ensures (Project(pending, c), Sequenced(Project(due, c))) == Q.Resend(Project(all, c), now)
      {
        ResendAllProjects(all, now, c);
      }
    }
  }

  /** Once a prefix shows the oldest sequence, the whole queue has the same. */
  lemma {:induction false} OldestIsFirst(entries: seq<Entry>, k: nat, channel: byte)
    requires k <= |entries| && Q.Oldest(Project(entries[..k], channel)).Some?
    ensures Q.Oldest(Project(entries, channel)) == Q.Oldest(Project(entries[..k], channel))
  {
    assert entries == entries[..k] + entries[k..];
    ProjectConcat(entries[..k], entries[k..], channel);
    OldestOfConcat(Project(entries[..k], channel), Project(entries[k..], channel));
  }

  lemma {:induction false} OldestOfConcat(a: seq<Q.Record>, b: seq<Q.Record>)
    requires Q.Oldest(a).Some?
    ensures Q.Oldest(a + b) == Q.Oldest(a)
  {
    assert (a + b)[0] == a[0] && (a + b)[1..] == a[1..] + b;
    if a[0].sequence.None? {
      OldestOfConcat(a[1..], b);
    }
  }

  /** resend_reliable, over the whole queue. */
  function ResendAll(entries: seq<Entry>, now: int): (r: (seq<Entry>, seq<Entry>)) {
    if entries == [] then ([], [])
    else
      var (rest, due) := ResendAll(entries[1..], now);
      if Q.Due(entries[0].record, now) then
        var e := entries[0].(record := entries[0].record.(lastSent := Some(now)));
        ([e] + rest, [e] + due)
      else ([entries[0]] + rest, due)
  }

  lemma {:induction false} ResendAllProjects(entries: seq<Entry>, now: int, channel: byte)
    ensures var (r, due) := ResendAll(entries, now);
            (Project(r, channel), Sequenced(Project(due, channel))) == Q.Resend(Project(entries, channel), now)
  {
    if entries != [] {
      ResendAllProjects(entries[1..], now, channel);
      var (rest, more) := ResendAll(entries[1..], now);
      var (r, due) := ResendAll(entries, now);
      assert r[1..] == rest;
      if Q.Due(entries[0].record, now) {
        assert due[1..] == more;
      }
      if entries[0].channel == channel {
        assert Project(entries, channel)[1..] == Project(entries[1..], channel);
      }
    }
  }

  /** What the three passes come to on one channel. */
  lemma {:induction false} PromotedPerChannel(q: Q.Queue, next: nat, capacity: nat, now: int)
    requires q.next < MAX_SEQUENCE
    requires capacity == if Q.HasUnsequenced(q.records) then Q.Capacity(q) else 0
    requires Q.HasUnsequenced(q.records) ==> next == q.next
    ensures Q.Promote(q, now).records == Q.Assign(q.records, next, capacity, now).0
    ensures Q.Promote(q, now).next == if capacity > 0 then Q.Assign(q.records, next, capacity, now).1 else q.next
  {
    NoRoomNoChange(q.records, next, now);
  }

  lemma {:induction false} NoRoomNoChange(records: seq<Q.Record>, next: nat, now: int)
    ensures Q.Assign(records, next, 0, now) == (records, next)
  {
    if records != [] {
      NoRoomNoChange(records[1..], next, now);
      assert [records[0]] + records[1..] == records;
    }
  }
}
