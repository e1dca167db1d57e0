/**
 * The Rust queue sender carries out the same unbounded protocol as the C# window sender: the
 * sequenced records are exactly the outstanding numbers in order, the rest is what was offered
 * later, and the oldest sequenced record is the window start.
 */
module QueueSenderRefinement {
  import opened Sequences
  import opened Packets
  import opened Protocol
  import opened QueueSender
  import W = WindowSenderRefinement

  /** `records` are the numbers from `from` up to `end` that are not acknowledged, in order. */
  ghost predicate Matches(records: seq<Record>, from: nat, end: nat, acked: set<nat>, log: seq<Body>)
    requires from <= end <= |log|
    decreases end - from
  {
    if from == end then records == []
    else if from in acked then Matches(records, from + 1, end, acked, log)
    else
      && records != []
      && records[0].sequence == Some(Wire(from))
      && records[0].body == log[from]
      && Matches(records[1..], from + 1, end, acked, log)
  }

  ghost predicate Waiting(records: seq<Record>, bodies: seq<Body>) {
    && |records| == |bodies|
    && forall k :: 0 <= k < |records| ==> records[k].sequence == None && records[k].body == bodies[k]
  }

  ghost predicate Represents(q: Queue, i: Ideal) {
    && i.base <= i.next <= |i.log|
    && i.next <= i.base + WINDOW
    && q.next == Wire(i.next)
    && |i.log| - i.next <= |q.records|
    && var k := |q.records| - (|i.log| - i.next);
       && Matches(q.records[..k], i.base, i.next, i.acked, i.log)
       && Waiting(q.records[k..], i.log[i.next..])
  }

  lemma {:induction false} OldestOfWaiting(records: seq<Record>)
    requires forall r <- records :: r.sequence == None
    ensures Oldest(records) == None
  {
    if records != [] {
      assert records[0] in records;
      OldestOfWaiting(records[1..]);
    }
  }

  /** The oldest sequenced record is the sender's window start. */
  lemma {:induction false} OldestIsBase(q: Queue, i: Ideal)
    requires Represents(q, i) && i.base !in i.acked
    ensures Oldest(q.records) == if i.base < i.next then Some(Wire(i.base)) else None
  {
    var k := |q.records| - (|i.log| - i.next);
    if i.base < i.next {
      assert q.records[..k][0] == q.records[0];
    } else {
      assert q.records[k..] == q.records;
      forall r <- q.records
        ensures r.sequence == None
      {
        var m :| 0 <= m < |q.records| && q.records[m] == r;
      }
      OldestOfWaiting(q.records);
    }
  }

  lemma {:induction false} RetainConcat(a: seq<Record>, b: seq<Record>, ack: AckPacket)
    ensures Retain(a + b, ack) == Retain(a, ack) + Retain(b, ack)
  {
    if a == [] {
      assert a + b == b;
    } else {
      assert (a + b)[1..] == a[1..] + b;
      RetainConcat(a[1..], b, ack);
    }
  }

  lemma {:induction false} RetainWaiting(records: seq<Record>, ack: AckPacket)
    requires forall k :: 0 <= k < |records| ==> records[k].sequence == None
    ensures Retain(records, ack) == records
  {
    if records != [] {
      RetainWaiting(records[1..], ack);
    }
  }

  /** Retaining what an acknowledgement does not cover removes exactly the numbers it reports. */
  lemma {:induction false} RetainMatches(records: seq<Record>, from: nat, i: Ideal, ack: AckPacket, v: View)
    requires i.base <= from <= i.next <= |i.log| && i.next <= i.base + WINDOW
    requires Matches(records, from, i.next, i.acked, i.log)
    requires W.Encodes(ack, v) && ViewSound(v) && v.floor <= i.base < v.floor + WINDOW
    ensures Matches(Retain(records, ack), from, i.next, i.acked + v.accepted, i.log)
    decreases i.next - from
  {
    if from < i.next {
      if from in i.acked {
        RetainMatches(records, from + 1, i, ack, v);
      } else {
        RetainMatches(records[1..], from + 1, i, ack, v);
        RelativeIsDifference(from, v.floor);
        RelativesAgree(Wire(from), Wire(v.floor));
        SlotOfWire(from);
        assert Acknowledges(ack, records[0]) <==> from in v.accepted;
        if from !in v.accepted {
          assert Retain(records, ack)[1..] == Retain(records[1..], ack);
        }
      }
    }
  }

  lemma {:induction false} MatchesFrom(records: seq<Record>, from: nat, later: nat, end: nat, acked: set<nat>, log: seq<Body>)
    requires from <= later <= end <= |log| && (forall n :: from <= n < later ==> n in acked)
    requires Matches(records, from, end, acked, log)
    ensures Matches(records, later, end, acked, log)
    decreases later - from
  {
    if from < later {
      MatchesFrom(records, from + 1, later, end, acked, log);
    }
  }

  lemma {:induction false} ProcessAckRefines(q: Queue, i: Ideal, ack: AckPacket, v: View)
    requires Represents(q, i) && SenderSound(i)
    requires W.Encodes(ack, v) && ViewSound(v)
    requires v.floor <= i.base < v.floor + MAX_SEQUENCE
    requires Nested(v.accepted, i.acked) && forall n <- v.accepted :: n < i.next
    ensures Represents(ProcessAck(q, ack), HearAck(i, v))
  {
    OldestIsBase(q, i);
    if i.base == i.next {
      NothingOutstanding(i, v);
      return;
    }
    W.AckConsidered(i.base, v.floor);
    RelativesGiveSameVerdicts(Wire(i.base), Wire(v.floor), WINDOW);
    if i.base - v.floor < WINDOW {
      var k := |q.records| - (|i.log| - i.next);
      var window, waiting := q.records[..k], q.records[k..];
      RetainConcat(window, waiting, ack);
      assert q.records == window + waiting;
      RetainWaiting(waiting, ack);
      RetainMatches(window, i.base, i, ack, v);
      var j := HearAck(i, v);
      assert j.base > i.next ==> i.next in i.acked + v.accepted;
      AckedIsBelowNext(i, v);
      MatchesFrom(Retain(window, ack), i.base, j.base, i.next, j.acked, i.log);
      var r := ProcessAck(q, ack);
      var l := |r.records| - (|i.log| - i.next);
      assert r.records[..l] == Retain(window, ack) && r.records[l..] == waiting;
    }
  }

  lemma {:induction false} AckedIsBelowNext(i: Ideal, v: View)
    requires SenderSound(i) && Nested(v.accepted, i.acked) && forall n <- v.accepted :: n < i.next
    ensures i.base < i.next ==> FirstGap(i.base, i.acked + v.accepted) <= i.next
  {
    var g := FirstGap(i.base, i.acked + v.accepted);
    if v.accepted <= i.acked {
      assert g > i.base ==> i.base in i.acked + v.accepted;
    } else {
      assert g > i.next ==> i.next in i.acked + v.accepted;
    }
  }

  lemma {:induction false} NothingOutstanding(i: Ideal, v: View)
    requires SenderSound(i) && i.base == i.next
    requires Nested(v.accepted, i.acked) && forall n <- v.accepted :: n < i.next
    ensures HearAck(i, v).base == i.base && HearAck(i, v).next == i.next && HearAck(i, v).log == i.log
    ensures forall n :: n >= i.base && n in HearAck(i, v).acked ==> n in i.acked
  {
    assert i.base !in v.accepted;
  }

  lemma {:induction false} AssignSkips(a: seq<Record>, b: seq<Record>, next: nat, capacity: nat, now: int)
    requires forall k :: 0 <= k < |a| ==> a[k].sequence.Some?
    ensures var (tail, last) := Assign(b, next, capacity, now); Assign(a + b, next, capacity, now) == (a + tail, last)
  {
    var (tail, last) := Assign(b, next, capacity, now);
    if a == [] {
      assert a + b == b && a + tail == tail;
    } else {
      AssignSkips(a[1..], b, next, capacity, now);
      assert (a + b)[1..] == a[1..] + b;
      assert [a[0]] + (a[1..] + tail) == a + tail;
    }
  }

  function Smaller(a: nat, b: nat): nat { if a < b then a else b }

  /** Waiting records are numbered consecutively from `n` until the capacity is used up. */
  lemma {:induction false} AssignNumbers(b: seq<Record>, n: nat, capacity: nat, now: int)
    requires forall k :: 0 <= k < |b| ==> b[k].sequence == None
    ensures var (r, last) := Assign(b, Wire(n), capacity, now);
            var m := Smaller(capacity, |b|);
            && last == Wire(n + m)
            && (forall k :: 0 <= k < m ==> r[k] == b[k].(sequence := Some(Wire(n + k)), lastSent := Some(now)))
            && (forall k :: m <= k < |b| ==> r[k] == b[k])
  {
    if b != [] {
      if capacity == 0 {
        AssignNumbers(b[1..], n, capacity, now);
      } else {
        WireStep(n);
        AssignNumbers(b[1..], n + 1, capacity - 1, now);
        var (r, last) := Assign(b, Wire(n), capacity, now);
        var (rest, tail) := Assign(b[1..], Wire(n + 1), capacity - 1, now);
        assert r[1..] == rest;
        forall k | 0 < k < |b|
          ensures r[k] == rest[k - 1] && b[k] == b[1..][k - 1]
        {
        }
      }
    }
  }

  lemma {:induction false} MatchesExtend(a: seq<Record>, c: seq<Record>, from: nat, mid: nat, end: nat, acked: set<nat>, log: seq<Body>)
    requires from <= mid <= end <= |log| && Matches(a, from, mid, acked, log)
    requires |c| == end - mid && (forall n <- acked :: n < mid)
    requires forall k :: 0 <= k < |c| ==> c[k].sequence == Some(Wire(mid + k)) && c[k].body == log[mid + k]
    ensures Matches(a + c, from, end, acked, log)
    decreases end - from
  {
    hide Wire;
    if from < mid {
      if from in acked {
        MatchesExtend(a, c, from + 1, mid, end, acked, log);
      } else {
        assert (a + c)[1..] == a[1..] + c;
        MatchesExtend(a[1..], c, from + 1, mid, end, acked, log);
      }
    } else {
      assert a + c == c;
      MatchesFresh(c, mid, end, acked, log);
    }
  }

  lemma {:induction false} MatchesFresh(c: seq<Record>, mid: nat, end: nat, acked: set<nat>, log: seq<Body>)
    requires mid <= end <= |log| && |c| == end - mid && (forall n <- acked :: n < mid)
    requires forall k :: 0 <= k < |c| ==> c[k].sequence == Some(Wire(mid + k)) && c[k].body == log[mid + k]
    ensures Matches(c, mid, end, acked, log)
    decreases end - mid
  {
    hide Wire;
    if mid < end {
      MatchesFresh(c[1..], mid + 1, end, acked, log);
    }
  }

  lemma {:induction false} MatchesIsSequenced(records: seq<Record>, from: nat, end: nat, acked: set<nat>, log: seq<Body>)
    requires from <= end <= |log| && Matches(records, from, end, acked, log)
    ensures forall k :: 0 <= k < |records| ==> records[k].sequence.Some?
    decreases end - from
  {
    if from < end {
      if from in acked {
        MatchesIsSequenced(records, from + 1, end, acked, log);
      } else {
        MatchesIsSequenced(records[1..], from + 1, end, acked, log);
        forall k | 0 <= k < |records|
          ensures records[k].sequence.Some?
        {
          if k > 0 {
            assert records[k] == records[1..][k - 1];
          }
        }
      }
    }
  }

  lemma {:induction false} CapacityIsWindowRoom(q: Queue, i: Ideal)
    requires Represents(q, i) && i.base !in i.acked
    ensures Capacity(q) == WINDOW - (i.next - i.base)
  {
    OldestIsBase(q, i);
    RelativeIsDifference(i.next, i.base);
    RelativesAgree(Wire(i.next), Wire(i.base));
  }

  /** promote_reliable_window when there is something to number and room for it. */
  lemma {:induction false} AssignRefines(window: seq<Record>, waiting: seq<Record>, i: Ideal, capacity: nat, now: int)
    requires SenderSound(i) && (forall n <- i.acked :: n < i.next)
    requires Matches(window, i.base, i.next, i.acked, i.log) && Waiting(waiting, i.log[i.next..])
    requires capacity == WINDOW - (i.next - i.base)
    ensures var (records, next) := Assign(window + waiting, Wire(i.next), capacity, now);
            Represents(Queue(records, next), Pump(i))
  {
    var j := Pump(i);
    MatchesIsSequenced(window, i.base, i.next, i.acked, i.log);
    AssignSkips(window, waiting, Wire(i.next), capacity, now);
    AssignNumbers(waiting, i.next, capacity, now);
    var (tail, last) := Assign(waiting, Wire(i.next), capacity, now);
    hide Assign, Wire, Matches;
    var m := Smaller(capacity, |waiting|);
    assert j.next == i.next + m;
    MatchesExtend(window, tail[..m], i.base, i.next, j.next, i.acked, i.log);
    Rejoined(window, tail, m);
    WaitingRest(waiting, tail, i.log, i.next, m);
  }

  lemma {:induction false} Rejoined(window: seq<Record>, tail: seq<Record>, m: nat)
    requires m <= |tail|
    ensures (window + tail)[..|window| + m] == window + tail[..m] && (window + tail)[|window| + m..] == tail[m..]
  {
  }

  lemma {:induction false} WaitingRest(waiting: seq<Record>, tail: seq<Record>, log: seq<Body>, next: nat, m: nat)
    requires next <= |log| && Waiting(waiting, log[next..]) && m <= |waiting| == |tail|
    requires forall k :: m <= k < |waiting| ==> tail[k] == waiting[k]
    ensures Waiting(tail[m..], log[next + m..])
  {
    assert log[next + m..] == log[next..][m..];
  }

  /** It sends each newly numbered packet under its own number. */
  lemma {:induction false} AssignEmits(window: seq<Record>, waiting: seq<Record>, i: Ideal, capacity: nat, now: int)
    requires SenderSound(i)
    requires Matches(window, i.base, i.next, i.acked, i.log) && Waiting(waiting, i.log[i.next..])
    requires capacity == WINDOW - (i.next - i.base)
    ensures Promoted(window + waiting, Assign(window + waiting, Wire(i.next), capacity, now).0)
            == W.PacketsOf(i.log, i.next, Pump(i).next)
  {
    MatchesIsSequenced(window, i.base, i.next, i.acked, i.log);
    AssignSkips(window, waiting, Wire(i.next), capacity, now);
    AssignNumbers(waiting, i.next, capacity, now);
    var (tail, last) := Assign(waiting, Wire(i.next), capacity, now);
    PromotedSkips(window, waiting, tail);
    PromotedNumbers(waiting, tail, i.next, Smaller(capacity, |waiting|), i.log);
  }

  lemma {:induction false} PromotedSkips(a: seq<Record>, b: seq<Record>, c: seq<Record>)
    requires |b| == |c| && forall k :: 0 <= k < |a| ==> a[k].sequence.Some?
    ensures Promoted(a + b, a + c) == Promoted(b, c)
  {
    if a == [] {
      assert a + b == b && a + c == c;
    } else {
      assert (a + b)[1..] == a[1..] + b && (a + c)[1..] == a[1..] + c;
      PromotedSkips(a[1..], b, c);
    }
  }

  lemma {:induction false} PromotedNumbers(b: seq<Record>, c: seq<Record>, n: nat, m: nat, log: seq<Body>)
    requires |b| == |c| && m <= |b| && n + |b| == |log|
    requires forall k :: 0 <= k < |b| ==> b[k].sequence == None && b[k].body == c[k].body == log[n + k]
    requires forall k :: 0 <= k < |c| ==> c[k].sequence == if k < m then Some(Wire(n + k)) else None
    ensures |Promoted(b, c)| == m
    ensures forall k :: 0 <= k < m ==> Promoted(b, c)[k] == W.PacketOf(log, n + k)
  {
    if b != [] {
      PromotedNumbers(b[1..], c[1..], n + 1, if m == 0 then 0 else m - 1, log);
    }
  }

  lemma {:induction false} PromotedNothing(records: seq<Record>)
    ensures Promoted(records, records) == []
  {
    if records != [] {
      PromotedNothing(records[1..]);
    }
  }

  /** promote_reliable_window is Pump, and what it sends are the newly numbered packets. */
  lemma {:induction false} PromoteRefines(q: Queue, i: Ideal, now: int)
    requires Represents(q, i) && SenderSound(i) && forall n <- i.acked :: n < i.next
    ensures Represents(Promote(q, now), Pump(i))
    ensures |Promote(q, now).records| == |q.records|
    ensures Promoted(q.records, Promote(q, now).records) == W.PacketsOf(i.log, i.next, Pump(i).next)
  {
    hide Promoted, W.PacketsOf, Matches;
    if HasUnsequenced(q.records) && Capacity(q) > 0 {
      CapacityIsWindowRoom(q, i);
      var k := |q.records| - (|i.log| - i.next);
      assert q.records == q.records[..k] + q.records[k..];
      AssignRefines(q.records[..k], q.records[k..], i, Capacity(q), now);
      AssignEmits(q.records[..k], q.records[k..], i, Capacity(q), now);
    } else {
      PromotedNothing(q.records);
      NothingToPromote(q, i);
    }
  }

  lemma {:induction false} NothingToPromote(q: Queue, i: Ideal)
    requires Represents(q, i) && i.base !in i.acked
    requires !HasUnsequenced(q.records) || Capacity(q) == 0
    ensures Pump(i) == i
  {
    CapacityIsWindowRoom(q, i);
    var k := |q.records| - (|i.log| - i.next);
    if i.next < |i.log| {
      assert q.records[k..][0] == q.records[k] && q.records[k] in q.records;
    }
  }

  /** Resending touches nothing but the time of the last transmission. */
  lemma {:induction false} ResendKeeps(records: seq<Record>, now: int)
    ensures var (r, out) := Resend(records, now);
            && (forall k :: 0 <= k < |records| ==> r[k].sequence == records[k].sequence && r[k].body == records[k].body)
            && (forall p <- out :: exists k :: 0 <= k < |records| && records[k].sequence.Some?
                                               && p == Packet(records[k].sequence.value, records[k].body))
            && (forall k :: 0 <= k < |records| && Due(records[k], now) ==>
                  Packet(records[k].sequence.value, records[k].body) in out)
  {
    if records != [] {
      ResendKeeps(records[1..], now);
      var (rest, more) := Resend(records[1..], now);
      var (r, out) := Resend(records, now);
      assert forall k :: 0 < k < |records| ==> r[k] == rest[k - 1] && records[k] == records[1..][k - 1];
      forall p <- out
        ensures exists k :: 0 <= k < |records| && records[k].sequence.Some? && p == Packet(records[k].sequence.value, records[k].body)
      {
        if p in more {
          var k :| 0 <= k < |records[1..]| && records[1..][k].sequence.Some?
                   && p == Packet(records[1..][k].sequence.value, records[1..][k].body);
          assert records[k + 1] == records[1..][k];
        }
      }
    }
  }

  lemma {:induction false} MatchesIgnoresTimes(a: seq<Record>, b: seq<Record>, from: nat, end: nat, acked: set<nat>, log: seq<Body>)
    requires |a| == |b| && forall k :: 0 <= k < |a| ==> a[k].sequence == b[k].sequence && a[k].body == b[k].body
    requires from <= end <= |log| && Matches(a, from, end, acked, log)
    ensures Matches(b, from, end, acked, log)
    decreases end - from
  {
    if from < end {
      if from in acked {
        MatchesIgnoresTimes(a, b, from + 1, end, acked, log);
      } else {
        MatchesIgnoresTimes(a[1..], b[1..], from + 1, end, acked, log);
      }
    }
  }

  ghost predicate Carries(r: Record, n: nat, log: seq<Body>) {
    n < |log| && r.sequence == Some(Wire(n)) && r.body == log[n]
  }

  /** Every sequenced record is an outstanding packet. */
  lemma {:induction false} RecordIsOutstanding(records: seq<Record>, from: nat, end: nat, acked: set<nat>, log: seq<Body>, k: nat)
    returns (n: nat)
    requires from <= end <= |log| && Matches(records, from, end, acked, log) && k < |records|
    ensures from <= n < end && n !in acked && Carries(records[k], n, log)
    decreases end - from
  {
    if from in acked {
      n := RecordIsOutstanding(records, from + 1, end, acked, log, k);
    } else if k == 0 {
      n := from;
    } else {
      n := RecordIsOutstanding(records[1..], from + 1, end, acked, log, k - 1);
    }
  }

  /** Every outstanding packet has its record. */
  lemma {:induction false} OutstandingHasRecord(records: seq<Record>, from: nat, end: nat, acked: set<nat>, log: seq<Body>, n: nat)
    returns (k: nat)
    requires from <= n < end <= |log| && Matches(records, from, end, acked, log) && n !in acked
    ensures k < |records| && Carries(records[k], n, log)
    decreases end - from
  {
    if from in acked {
      k := OutstandingHasRecord(records, from + 1, end, acked, log, n);
    } else if n == from {
      k := 0;
    } else {
      k := OutstandingHasRecord(records[1..], from + 1, end, acked, log, n);
      k := k + 1;
    }
  }

  /** resend_reliable sends outstanding packets only. */
  lemma {:induction false} ResendRefines(q: Queue, i: Ideal, now: int)
    requires Represents(q, i)
    ensures Represents(q.(records := Resend(q.records, now).0), i)
    ensures forall p <- Resend(q.records, now).1 :: W.IsOutstanding(p, i)
  {
    ResendKeeps(q.records, now);
    var (r, out) := Resend(q.records, now);
    var k := |q.records| - (|i.log| - i.next);
    MatchesIgnoresTimes(q.records[..k], r[..k], i.base, i.next, i.acked, i.log);
    forall p <- out
      ensures W.IsOutstanding(p, i)
    {
      var m :| 0 <= m < |q.records| && q.records[m].sequence.Some?
               && p == Packet(q.records[m].sequence.value, q.records[m].body);
      var n := RecordIsOutstanding(q.records[..k], i.base, i.next, i.acked, i.log, m);
      assert p == W.PacketOf(i.log, n);
    }
  }

  /** Once the oldest record is due, the oldest outstanding packet is sent again. */
  lemma {:induction false} ResendReachesOldest(q: Queue, i: Ideal, now: int)
    requires Represents(q, i) && i.base < i.next && i.base !in i.acked
    ensures q.records != [] && q.records[0].sequence.Some?
    ensures Due(q.records[0], now) ==> W.PacketOf(i.log, i.base) in Resend(q.records, now).1
  {
    var k := |q.records| - (|i.log| - i.next);
    assert q.records[..k][0] == q.records[0];
  }

  lemma {:induction false} OfferRefines(q: Queue, i: Ideal, body: Body)
    requires Represents(q, i)
    ensures Represents(q.(records := q.records + [Record(None, body, None)]), Offer(i, body))
  {
    var k := |q.records| - (|i.log| - i.next);
    var r := q.records + [Record(None, body, None)];
    assert r[..k] == q.records[..k];
    assert r[k..] == q.records[k..] + [Record(None, body, None)];
    assert (i.log + [body])[i.next..] == i.log[i.next..] + [body];
    MatchesLogGrows(q.records[..k], i.base, i.next, i.acked, i.log, body);
  }

  lemma {:induction false} MatchesLogGrows(records: seq<Record>, from: nat, end: nat, acked: set<nat>, log: seq<Body>, body: Body)
    requires from <= end <= |log| && Matches(records, from, end, acked, log)
    ensures Matches(records, from, end, acked, log + [body])
    decreases end - from
  {
    if from < end {
      if from in acked {
        MatchesLogGrows(records, from + 1, end, acked, log, body);
      } else {
        MatchesLogGrows(records[1..], from + 1, end, acked, log, body);
      }
    }
  }
}
