/**
 * Set/Get chains against the storage server: each client writes a value, reads it back and
 * compares. Every chain started while measuring ends in exactly one of the counters.
 */
module Persistence {
  import opened Packets
  import opened Clock

  const TIMEOUT := 10 * SECOND
  const STATUSES := 11

  datatype Op = Set | Get

  datatype Request = Request(op: Op, id: nat, sequence: nat, cycle: int, phase: int, measured: bool)

  datatype Connection = Connection(generation: int, nextDue: int, nextId: nat, sequence: nat, pending: Option<Request>)

  type Connections = map<nat, Connection>

  /** The latency fields list the samples their histograms were given. */
  datatype Metrics = Metrics(
    setsSent: nat, setsOk: nat, getsSent: nat, getsOk: nat, verified: nat,
    statuses: seq<nat>,
    corrupt: nat, malformed: nat, sendErrors: nat, timeouts: nat, canceled: nat,
    stale: nat, backpressure: nat, warmupFailures: nat,
    writers: set<nat>, verifiedWriters: set<nat>,
    setLatency: seq<nat>, getLatency: seq<nat>, cycleLatency: seq<nat>)

  function NoMetrics(): Metrics {
    Metrics(0, 0, 0, 0, 0, seq(STATUSES, _ => 0), 0, 0, 0, 0, 0, 0, 0, 0, {}, {}, [], [], [])
  }

  datatype State = State(connections: Connections, metrics: Metrics, measurementStart: Option<int>)

  function Idle(): State { State(map[], NoMetrics(), None) }

  /** Interval between chains, optional length of the measurement, and the stored bytes of a write. */
  datatype Config = Config(interval: nat, window: Option<nat>, value: (nat, int, nat) -> seq<byte>)

  /** A reply that parsed: its request id is not zero and its status is one of eleven. */
  datatype Reply = Reply(op: Op, id: nat, status: nat, value: seq<byte>)

  predicate WellFormed(r: Reply) { 0 < r.id < 65536 && r.status < STATUSES }

  /** The next request id: a wrapping 16-bit counter that skips zero. */
  function NextId(id: nat): (r: nat)
    requires id < 65536
    ensures 0 < r < 65536
  {
    if id == 65535 then 1 else id + 1
  }

  function Micros(now: int, since: int): nat { Elapsed(now, since) / MICROSECOND }

  // ---- Ends of chains ----

  function Cancel(m: Metrics, p: Request): Metrics {
    if p.measured then m.(canceled := m.canceled + 1) else m.(warmupFailures := m.warmupFailures + 1)
  }

  function CancelAny(m: Metrics, p: Option<Request>): Metrics { if p.Some? then Cancel(m, p.value) else m }

  function Fail(m: Metrics, p: Request): Metrics {
    if p.measured then m.(sendErrors := m.sendErrors + 1) else m.(warmupFailures := m.warmupFailures + 1)
  }

  function TimeOut(m: Metrics, p: Request): Metrics {
    if p.measured then m.(timeouts := m.timeouts + 1) else m.(warmupFailures := m.warmupFailures + 1)
  }

  /** A reply to the pending request: count its status and its latency. */
  function Answer(m: Metrics, p: Request, r: Reply, now: int): Metrics
    requires r.status < |m.statuses|
  {
    if p.measured then
      var counted := m.(statuses := m.statuses[r.status := m.statuses[r.status] + 1]);
      if r.op == Set then counted.(setLatency := counted.setLatency + [Micros(now, p.phase)])
      else counted.(getLatency := counted.getLatency + [Micros(now, p.phase)])
    else if r.status != 0 then m.(warmupFailures := m.warmupFailures + 1)
    else m
  }

  function SetDone(m: Metrics, p: Request): Metrics {
    if p.measured then m.(setsOk := m.setsOk + 1, getsSent := m.getsSent + 1) else m
  }

  function GetDone(m: Metrics, p: Request, index: nat, correct: bool, now: int): Metrics {
    if p.measured && correct then
      m.(getsOk := m.getsOk + 1, verified := m.verified + 1, verifiedWriters := m.verifiedWriters + {index},
         cycleLatency := m.cycleLatency + [Micros(now, p.cycle)])
    else if p.measured then m.(getsOk := m.getsOk + 1, corrupt := m.corrupt + 1)
    else if correct then m
    else m.(warmupFailures := m.warmupFailures + 1)
  }

  // ---- Steps ----

  predicate IsAt(cs: Connections, index: nat, generation: int) { index in cs && cs[index].generation == generation }

  predicate Awaits(c: Connection, id: nat) { c.pending.Some? && c.pending.value.id == id }

  function CancelStep(s: State, index: nat, generation: int): State {
    if !IsAt(s.connections, index, generation) then s
    else s.(connections := s.connections - {index}, metrics := CancelAny(s.metrics, s.connections[index].pending))
  }

  function SendFailedStep(s: State, index: nat, generation: int, id: nat): State {
    if !IsAt(s.connections, index, generation) || !Awaits(s.connections[index], id) then s
    else
      var c := s.connections[index];
      s.(connections := s.connections[index := c.(pending := None)], metrics := Fail(s.metrics, c.pending.value))
  }

  /** `observe`; None is a payload that does not parse. */
  function ObserveStep(config: Config, s: State, index: nat, generation: int, reply: Option<Reply>, now: int): State
    requires Shaped(s) && (reply.Some? ==> WellFormed(reply.value))
  {
    if !IsAt(s.connections, index, generation) then s
    else if reply.None? then s.(metrics := s.metrics.(malformed := s.metrics.malformed + 1))
    else
      var c, r := s.connections[index], reply.value;
      if !Awaits(c, r.id) || c.pending.value.op != r.op then s.(metrics := s.metrics.(stale := s.metrics.stale + 1))
      else
        var p := c.pending.value;
        var m := Answer(s.metrics, p, r, now);
        if r.status != 0 then s.(connections := s.connections[index := c.(pending := None)], metrics := m)
        else if r.op == Set then
          var id := NextId(c.nextId);
          var q := p.(id := id, op := Get, phase := now);
          s.(connections := s.connections[index := c.(nextId := id, pending := Some(q))], metrics := SetDone(m, p))
        else
          var correct := r.value == config.value(index, generation, p.sequence);
          s.(connections := s.connections[index := c.(pending := None)], metrics := GetDone(m, p, index, correct, now))
  }

  /** A Set acknowledged while its chain waits for it: the chain goes on with a Get. */
  predicate Continues(s: State, index: nat, generation: int, reply: Option<Reply>) {
    && IsAt(s.connections, index, generation) && reply.Some?
    && Awaits(s.connections[index], reply.value.id)
    && s.connections[index].pending.value.op == reply.value.op == Set
    && reply.value.status == 0
  }

  /** `measurement`: started by the first look that finds the start file. */
  function Begun(s: State, started: bool, now: int): State {
    if s.measurementStart.None? && started then s.(measurementStart := Some(now)) else s
  }

  predicate Finished(config: Config, s: State, now: int) {
    s.measurementStart.Some? && config.window.Some? && Elapsed(now, s.measurementStart.value) >= config.window.value
  }

  predicate Measuring(config: Config, s: State, now: int) {
    s.measurementStart.Some? && !Finished(config, s, now)
  }

  /** Another generation takes the place of the connection, whose chain is canceled. */
  function Adopt(s: State, index: nat, generation: int, due: int): State {
    if IsAt(s.connections, index, generation) then s
    else
      var cancelled := if index in s.connections then CancelAny(s.metrics, s.connections[index].pending) else s.metrics;
      s.(connections := s.connections[index := Connection(generation, due, 0, 0, None)], metrics := cancelled)
  }

  function Expire(s: State, index: nat, now: int): State
    requires index in s.connections
  {
    var c := s.connections[index];
    if c.pending.Some? && Elapsed(now, c.pending.value.phase) >= TIMEOUT then
      s.(connections := s.connections[index := c.(pending := None)], metrics := TimeOut(s.metrics, c.pending.value))
    else s
  }

  /** A new chain is due and nothing stands in its way. */
  predicate Starts(config: Config, s: State, index: nat, backpressure: bool, now: int)
    requires index in s.connections
  {
    && !Finished(config, s, now) && !backpressure
    && s.connections[index].pending.None? && s.connections[index].nextDue <= now
  }

  function Start(config: Config, s: State, index: nat, backpressure: bool, now: int): State
    requires index in s.connections && s.connections[index].nextId < 65536
  {
    var c, measured := s.connections[index], Measuring(config, s, now);
    if Finished(config, s, now) || c.pending.Some? || now < c.nextDue then s
    else if backpressure then
      s.(metrics := if measured then s.metrics.(backpressure := s.metrics.backpressure + 1) else s.metrics)
    else
      var id := NextId(c.nextId);
      var d := c.(nextId := id, sequence := (c.sequence + 1) % 0x1_0000_0000_0000_0000, nextDue := now + config.interval,
                  pending := Some(Request(Set, id, c.sequence, now, now, measured)));
      var m := if measured then s.metrics.(setsSent := s.metrics.setsSent + 1, writers := s.metrics.writers + {index}) else s.metrics;
      s.(connections := s.connections[index := d], metrics := m)
  }

  /** The state in which a client's turn decides whether to write: replaced, expired, up to date. */
  function Readied(s: State, index: nat, generation: int, started: bool, due: int, now: int): (r: State)
    requires Shaped(s)
    ensures Shaped(r) && IsAt(r.connections, index, generation)
  {
    Expire(Adopt(Begun(s, started, now), index, generation, due), index, now)
  }

  /** One client's turn in a tick of `run`; `due` is when a new connection first writes. */
  function TickStep(config: Config, s: State, index: nat, generation: int, backpressure: bool, started: bool, due: int, now: int): State
    requires Shaped(s)
  {
    Start(config, Readied(s, index, generation, started, due, now), index, backpressure, now)
  }

  function Measured(cs: Connections): set<nat> {
    set k | k in cs && cs[k].pending.Some? && cs[k].pending.value.measured
  }

  function Unmeasured(cs: Connections): set<nat> {
    set k | k in cs && cs[k].pending.Some? && !cs[k].pending.value.measured
  }

  /** The end of `run`: every chain still pending is canceled. */
  function ShutdownStep(s: State): State {
    s.(connections := Emptied(s.connections, {}),
       metrics := Canceled(s.metrics, |Measured(s.connections)|, |Unmeasured(s.connections)|))
  }

  function Canceled(m: Metrics, measured: nat, unmeasured: nat): Metrics {
    m.(canceled := m.canceled + measured, warmupFailures := m.warmupFailures + unmeasured)
  }

  predicate Shaped(s: State) {
    && |s.metrics.statuses| == STATUSES
    && forall k <- s.connections :: s.connections[k].nextId < 65536
  }

  // ---- The session as it is updated in place ----

  class PersistenceSession {
    const config: Config
    var connections: Connections
    var metrics: Metrics
    var measurementStart: Option<int>

    constructor (config: Config)
      ensures this.config == config && Contents() == Idle()
    {
      this.config := config;
      connections, metrics, measurementStart := map[], NoMetrics(), None;
    }

    function Contents(): State
      reads this
    {
      State(connections, metrics, measurementStart)
    }

    method Cancel(index: nat, generation: int)
      modifies this
      ensures Contents() == CancelStep(old(Contents()), index, generation)
    {
      if index in connections && connections[index].generation == generation {
        var connection := connections[index];
        connections := connections - {index};
        if connection.pending.Some? {
          if connection.pending.value.measured {
            metrics := metrics.(canceled := metrics.canceled + 1);
          } else {
            metrics := metrics.(warmupFailures := metrics.warmupFailures + 1);
          }
        }
      }
    }

    method SendFailed(index: nat, generation: int, id: nat)
      modifies this
      ensures Contents() == SendFailedStep(old(Contents()), index, generation, id)
    {
      if index in connections && connections[index].generation == generation {
        var connection := connections[index];
        if connection.pending.Some? && connection.pending.value.id == id {
          connections := connections[index := connection.(pending := None)];
          if connection.pending.value.measured {
            metrics := metrics.(sendErrors := metrics.sendErrors + 1);
          } else {
            metrics := metrics.(warmupFailures := metrics.warmupFailures + 1);
          }
        }
      }
    }

    /** The id of the Get request to send next, if any. */
    method Observe(index: nat, generation: int, reply: Option<Reply>, now: int) returns (next: Option<nat>)
      requires Shaped(Contents()) && (reply.Some? ==> WellFormed(reply.value))
      modifies this
      ensures Contents() == ObserveStep(config, old(Contents()), index, generation, reply, now)
      ensures next == Issued(config, old(Contents()), DoObserve(index, generation, reply, now), index)
      ensures next.Some? ==> IsAt(connections, index, generation) && Awaits(connections[index], next.value)
    {
      next := None;
      if index !in connections || connections[index].generation != generation {
        return;
      }
      if reply.None? {
        metrics := metrics.(malformed := metrics.malformed + 1);
        return;
      }
      var connection, parsed := connections[index], reply.value;
      if connection.pending.None? || connection.pending.value.id != parsed.id || connection.pending.value.op != parsed.op {
        metrics := metrics.(stale := metrics.stale + 1);
        return;
      }
      var pending := connection.pending.value;
      connection := connection.(pending := None);
      Count(pending, parsed, now);
      if parsed.status == 0 {
        if parsed.op == Set {
          if pending.measured {
            metrics := metrics.(setsOk := metrics.setsOk + 1, getsSent := metrics.getsSent + 1);
          }
          var id := NextId(connection.nextId);
          pending := pending.(id := id, op := Get, phase := now);
          connection := connection.(nextId := id, pending := Some(pending));
          next := Some(id);
        } else {
          var correct := parsed.value == config.value(index, generation, pending.sequence);
          Compare(index, pending, correct, now);
        }
      }
      connections := connections[index := connection];
    }

    /** Status and latency of a reply. */
    method Count(pending: Request, parsed: Reply, now: int)
      requires parsed.status < |metrics.statuses|
      modifies this`metrics
      ensures metrics == Answer(old(metrics), pending, parsed, now)
    {
      if pending.measured {
        metrics := metrics.(statuses := metrics.statuses[parsed.status := metrics.statuses[parsed.status] + 1]);
        if parsed.op == Set {
          metrics := metrics.(setLatency := metrics.setLatency + [Micros(now, pending.phase)]);
        } else {
          metrics := metrics.(getLatency := metrics.getLatency + [Micros(now, pending.phase)]);
        }
      } else if parsed.status != 0 {
        metrics := metrics.(warmupFailures := metrics.warmupFailures + 1);
      }
    }

    /** The verdict on the value read back. */
    method Compare(index: nat, pending: Request, correct: bool, now: int)
      modifies this`metrics
      ensures metrics == GetDone(old(metrics), pending, index, correct, now)
    {
      if pending.measured {
        metrics := metrics.(getsOk := metrics.getsOk + 1);
        if correct {
          metrics := metrics.(verified := metrics.verified + 1, verifiedWriters := metrics.verifiedWriters + {index});
          metrics := metrics.(cycleLatency := metrics.cycleLatency + [Micros(now, pending.cycle)]);
        } else {
          metrics := metrics.(corrupt := metrics.corrupt + 1);
        }
      } else if !correct {
        metrics := metrics.(warmupFailures := metrics.warmupFailures + 1);
      }
    }

    /** The connection of this client's generation, made anew if it replaces another. */
    method Prepare(index: nat, generation: int, started: bool, due: int, now: int)
      requires Shaped(Contents())
      modifies this
      ensures Contents() == Adopt(Begun(old(Contents()), started, now), index, generation, due)
      ensures Shaped(Contents()) && IsAt(connections, index, generation)
    {
      if measurementStart.None? && started {
        measurementStart := Some(now);
      }
      if index in connections && connections[index].generation != generation {
        metrics := CancelAny(metrics, connections[index].pending);
        connections := connections - {index};
      }
      if index !in connections {
        connections := connections[index := Connection(generation, due, 0, 0, None)];
      }
      assert connections == Adopt(Begun(old(Contents()), started, now), index, generation, due).connections;
    }

    method DropExpired(index: nat, now: int)
      requires Shaped(Contents()) && index in connections
      modifies this`connections, this`metrics
      ensures Contents() == Expire(old(Contents()), index, now) && Shaped(Contents())
      ensures index in connections && connections[index].generation == old(connections[index].generation)
    {
      var connection := connections[index];
      if connection.pending.Some? && Elapsed(now, connection.pending.value.phase) >= TIMEOUT {
        connections := connections[index := connection.(pending := None)];
        if connection.pending.value.measured {
          metrics := metrics.(timeouts := metrics.timeouts + 1);
        } else {
          metrics := metrics.(warmupFailures := metrics.warmupFailures + 1);
        }
      }
    }

    /** One client's turn in a tick; the id of the Set request to send, if any. */
    method Tick(index: nat, generation: int, backpressure: bool, started: bool, due: int, now: int) returns (send: Option<nat>)
      requires Shaped(Contents())
      modifies this
      ensures Contents() == TickStep(config, old(Contents()), index, generation, backpressure, started, due, now)
      ensures send == Issued(config, old(Contents()), DoTick(index, generation, backpressure, started, due, now), index)
      ensures send.Some? ==> IsAt(connections, index, generation) && Awaits(connections[index], send.value)
    {
      Prepare(index, generation, started, due, now);
      DropExpired(index, now);
      assert Contents() == Readied(old(Contents()), index, generation, started, due, now);
      hide Readied, Start, Starts;
      send := Write(index, backpressure, now);
    }

    method Write(index: nat, backpressure: bool, now: int) returns (send: Option<nat>)
      requires Shaped(Contents()) && index in connections
      modifies this`connections, this`metrics
      ensures Contents() == Start(config, old(Contents()), index, backpressure, now)
      ensures index in connections && connections[index].generation == old(connections[index].generation)
      ensures send == if Starts(config, old(Contents()), index, backpressure, now) then Some(NextId(old(connections[index].nextId))) else None
      ensures send.Some? ==> Awaits(connections[index], send.value)
    {
      var finished := measurementStart.Some? && config.window.Some? && Elapsed(now, measurementStart.value) >= config.window.value;
      var measured := measurementStart.Some? && !finished;
      var connection := connections[index];
      if finished || connection.pending.Some? || now < connection.nextDue {
        return None;
      }
      if backpressure {
        if measured {
          metrics := metrics.(backpressure := metrics.backpressure + 1);
        }
        return None;
      }
      var id := NextId(connection.nextId);
      var sequence := connection.sequence;
      connection := connection.(nextId := id, sequence := (sequence + 1) % 0x1_0000_0000_0000_0000, nextDue := now + config.interval);
      connections := connections[index := connection.(pending := Some(Request(Set, id, sequence, now, now, measured)))];
      if measured {
        metrics := metrics.(setsSent := metrics.setsSent + 1, writers := metrics.writers + {index});
      }
      return Some(id);
    }

    /** The chains still pending when the loop ends, one at a time and in any order. */
    method Shutdown()
      modifies this`connections, this`metrics
      ensures Contents() == ShutdownStep(old(Contents()))
    {
      var canceled, warmup;
      connections, canceled, warmup := Drain(connections);
      metrics := metrics.(canceled := metrics.canceled + canceled, warmupFailures := metrics.warmupFailures + warmup);
    }
  }

  /** Take every pending chain and count what was taken. */
  method Drain(before: Connections) returns (connections: Connections, canceled: nat, warmup: nat)
    ensures connections == Emptied(before, {})
    ensures canceled == |Measured(before)| && warmup == |Unmeasured(before)|
  {
    hide Emptied, Measured, Unmeasured;
    connections, canceled, warmup := before, 0, 0;
    var rest := before.Keys;
    BeforeShutdown(before);
    while rest != {}
      invariant rest <= before.Keys && connections == Emptied(before, rest)
      invariant canceled == |Measured(before) - rest| && warmup == |Unmeasured(before) - rest|
      decreases rest
    {
      var k :| k in rest;
      EmptyOne(before, rest, k);
      var pending := connections[k].pending;
      connections := connections[k := connections[k].(pending := None)];
      if pending.Some? {
        if pending.value.measured {
          canceled := canceled + 1;
        } else {
          warmup := warmup + 1;
        }
      }
      rest := rest - {k};
    }
    assert Measured(before) - {} == Measured(before) && Unmeasured(before) - {} == Unmeasured(before);
  }

  /** The connections with nothing pending outside `keys`. */
  function Emptied(cs: Connections, keys: set<nat>): Connections {
    map k | k in cs :: if k in keys then cs[k] else cs[k].(pending := None)
  }

  /** One more chain taken, in the connections and in the counts. */
  lemma {:induction false} EmptyOne(cs: Connections, rest: set<nat>, k: nat)
    requires k in rest && rest <= cs.Keys
    ensures k in Emptied(cs, rest)
    ensures Emptied(cs, rest)[k := Emptied(cs, rest)[k].(pending := None)] == Emptied(cs, rest - {k})
    ensures var p := Emptied(cs, rest)[k].pending;
            && |Measured(cs) - (rest - {k})| == |Measured(cs) - rest| + (if p.Some? && p.value.measured then 1 else 0)
            && |Unmeasured(cs) - (rest - {k})| == |Unmeasured(cs) - rest| + (if p.Some? && !p.value.measured then 1 else 0)
  {
    SplitOff(Measured(cs), rest, k);
    SplitOff(Unmeasured(cs), rest, k);
    assert k in cs;
  }

  lemma {:induction false} BeforeShutdown(cs: Connections)
    ensures cs == Emptied(cs, cs.Keys)
    ensures |Measured(cs) - cs.Keys| == 0 && |Unmeasured(cs) - cs.Keys| == 0
  {
  }

  lemma {:induction false} SplitOff(s: set<nat>, rest: set<nat>, k: nat)
    requires k in rest
    ensures |s - (rest - {k})| == |s - rest| + if k in s then 1 else 0
  {
    assert s - (rest - {k}) == if k in s then (s - rest) + {k} else s - rest;
  }

  // ---- Conservation ----

  function Sum(s: seq<nat>): nat { if s == [] then 0 else s[0] + Sum(s[1..]) }

  /** The nonzero-status replies. */
  function Failures(m: Metrics): nat
    requires |m.statuses| == STATUSES
  {
    Sum(m.statuses[1..])
  }

  /** The counters agree with one another and with `pending` measured chains under way. */
  predicate Ledger(m: Metrics, pending: nat) {
    && |m.statuses| == STATUSES
    && m.setsSent == m.verified + m.corrupt + Failures(m) + m.sendErrors + m.timeouts + m.canceled + pending
    && m.getsSent == m.setsOk
    && m.getsOk == m.verified + m.corrupt
    && m.statuses[0] == m.setsOk + m.getsOk
    && |m.setLatency| + |m.getLatency| == Sum(m.statuses)
    && |m.cycleLatency| == m.verified
    && m.verifiedWriters <= m.writers
  }

  /** The accounts balance. */
  predicate Balanced(s: State) {
    && Shaped(s)
    && Ledger(s.metrics, |Measured(s.connections)|)
    && Measured(s.connections) <= s.metrics.writers
  }

  lemma {:induction false} SumBump(s: seq<nat>, k: nat)
    requires k < |s|
    ensures Sum(s[k := s[k] + 1]) == Sum(s) + 1
  {
    if k == 0 {
      assert s[k := s[k] + 1][1..] == s[1..];
    } else {
      assert s[k := s[k] + 1][1..] == s[1..][k - 1 := s[k] + 1];
      SumBump(s[1..], k - 1);
    }
  }

  lemma {:induction false} CountStatus(m: Metrics, status: nat)
    requires |m.statuses| == STATUSES && status < STATUSES
    ensures var n := m.(statuses := m.statuses[status := m.statuses[status] + 1]);
            && Sum(n.statuses) == Sum(m.statuses) + 1
            && Failures(n) == Failures(m) + if status == 0 then 0 else 1
  {
    SumBump(m.statuses, status);
    if status > 0 {
      SumBump(m.statuses[1..], status - 1);
      assert m.statuses[status := m.statuses[status] + 1][1..] == m.statuses[1..][status - 1 := m.statuses[status] + 1];
    } else {
      assert m.statuses[status := m.statuses[status] + 1][1..] == m.statuses[1..];
    }
  }

  /** Whether a connection holds a measured chain, counted. */
  function Weight(c: Connection): nat { if c.pending.Some? && c.pending.value.measured then 1 else 0 }

  lemma {:induction false} MeasuredPut(cs: Connections, k: nat, c: Connection)
    ensures |Measured(cs[k := c])| == |Measured(cs)| + Weight(c) - if k in cs then Weight(cs[k]) else 0
    ensures Measured(cs[k := c]) <= Measured(cs) + {k}
    ensures Weight(c) == 0 ==> k !in Measured(cs[k := c])
  {
    assert Measured(cs[k := c]) == if Weight(c) == 1 then Measured(cs) + {k} else Measured(cs) - {k};
  }

  lemma {:induction false} MeasuredDrop(cs: Connections, k: nat)
    requires k in cs
    ensures |Measured(cs - {k})| == |Measured(cs)| - Weight(cs[k]) && Measured(cs - {k}) <= Measured(cs)
  {
    assert Measured(cs - {k}) == Measured(cs) - {k};
  }

  lemma {:induction false} CancelBalances(s: State, index: nat, generation: int)
    requires Balanced(s)
    ensures Balanced(CancelStep(s, index, generation))
  {
    if IsAt(s.connections, index, generation) {
      MeasuredDrop(s.connections, index);
    }
  }

  lemma {:induction false} SendFailedBalances(s: State, index: nat, generation: int, id: nat)
    requires Balanced(s)
    ensures Balanced(SendFailedStep(s, index, generation, id))
  {
    hide Sum;
    if IsAt(s.connections, index, generation) {
      MeasuredPut(s.connections, index, s.connections[index].(pending := None));
    }
  }

  /** Counting the status and latency of a reply to a measured request. */
  lemma {:induction false} AnswerCounts(m: Metrics, p: Request, r: Reply, now: int)
    requires |m.statuses| == STATUSES && r.status < STATUSES && p.measured
    ensures var n := Answer(m, p, r, now);
            && n == m.(statuses := n.statuses, setLatency := n.setLatency, getLatency := n.getLatency)
            && |n.statuses| == STATUSES && n.statuses[0] == m.statuses[0] + (if r.status == 0 then 1 else 0)
            && Sum(n.statuses) == Sum(m.statuses) + 1 && Failures(n) == Failures(m) + (if r.status == 0 then 0 else 1)
            && |n.setLatency| + |n.getLatency| == |m.setLatency| + |m.getLatency| + 1
  {
    CountStatus(m, r.status);
  }

  /** A failed reply ends a chain, a Set acknowledged goes on, a value read back ends it. */
  lemma {:induction false} ReplyBalances(m: Metrics, pending: nat, p: Request, r: Reply, index: nat, correct: bool, now: int)
    requires Ledger(m, pending) && r.status < STATUSES && p.measured && pending > 0 && index in m.writers
    ensures r.status != 0 ==> Ledger(Answer(m, p, r, now), pending - 1)
    ensures r.status == 0 && r.op == Set ==> Ledger(SetDone(Answer(m, p, r, now), p), pending)
    ensures r.status == 0 && r.op == Get ==> Ledger(GetDone(Answer(m, p, r, now), p, index, correct, now), pending - 1)
  {
    AnswerCounts(m, p, r, now);
    hide Sum, Answer;
  }

  /** Replies to requests of the warmup touch none of the accounts. */
  lemma {:induction false} WarmupBalances(m: Metrics, pending: nat, p: Request, r: Reply, index: nat, correct: bool, now: int)
    requires Ledger(m, pending) && r.status < STATUSES && !p.measured
    ensures Ledger(Answer(m, p, r, now), pending)
    ensures Ledger(SetDone(Answer(m, p, r, now), p), pending)
    ensures Ledger(GetDone(Answer(m, p, r, now), p, index, correct, now), pending)
  {
  }

  /** A connection changes and the counters follow. */
  lemma {:induction false} Settle(s: State, index: nat, d: Connection, m: Metrics)
    requires Balanced(s) && index in s.connections && d.nextId < 65536 && Weight(d) <= Weight(s.connections[index])
    requires |Measured(s.connections)| + Weight(d) >= Weight(s.connections[index])
    requires Ledger(m, |Measured(s.connections)| + Weight(d) - Weight(s.connections[index])) && m.writers == s.metrics.writers
    ensures Balanced(s.(connections := s.connections[index := d], metrics := m))
  {
    MeasuredPut(s.connections, index, d);
    assert Weight(s.connections[index]) == 1 ==> index in Measured(s.connections);
    hide Ledger, Measured;
    assert |m.statuses| == STATUSES by {
      LedgerIsShaped(m, |Measured(s.connections)| + Weight(d) - Weight(s.connections[index]));
    }
  }

  lemma {:induction false} LedgerIsShaped(m: Metrics, pending: nat)
    requires Ledger(m, pending)
    ensures |m.statuses| == STATUSES
  {
  }

  lemma {:induction false} ObserveBalances(config: Config, s: State, index: nat, generation: int, reply: Option<Reply>, now: int)
    requires Balanced(s) && (reply.Some? ==> WellFormed(reply.value))
    ensures Balanced(ObserveStep(config, s, index, generation, reply, now))
  {
    if IsAt(s.connections, index, generation) && reply.Some? && Awaits(s.connections[index], reply.value.id)
       && s.connections[index].pending.value.op == reply.value.op {
      AwaitedBalances(config, s, index, generation, reply.value, now);
    } else {
      hide Sum, Measured;
    }
  }

  lemma {:induction false} AwaitedBalances(config: Config, s: State, index: nat, generation: int, r: Reply, now: int)
    requires Balanced(s) && WellFormed(r) && IsAt(s.connections, index, generation)
    requires Awaits(s.connections[index], r.id) && s.connections[index].pending.value.op == r.op
    ensures Balanced(ObserveStep(config, s, index, generation, Some(r), now))
  {
    var c, t := s.connections[index], ObserveStep(config, s, index, generation, Some(r), now);
    var p, pending := c.pending.value, |Measured(s.connections)|;
    var correct := r.value == config.value(index, generation, p.sequence);
    if p.measured {
      assert index in Measured(s.connections);
      ReplyBalances(s.metrics, pending, p, r, index, correct, now);
    } else {
      WarmupBalances(s.metrics, pending, p, r, index, correct, now);
    }
    ReplyKeepsWriters(s.metrics, p, r, index, correct, now);
    hide Answer, SetDone, GetDone, Ledger, Measured, Balanced;
    Settle(s, index, t.connections[index], t.metrics);
  }

  lemma {:induction false} ReplyKeepsWriters(m: Metrics, p: Request, r: Reply, index: nat, correct: bool, now: int)
    requires |m.statuses| == STATUSES && r.status < STATUSES
    ensures var n := Answer(m, p, r, now);
            && n.writers == m.writers && |n.statuses| == STATUSES
            && SetDone(n, p).writers == m.writers && SetDone(n, p).statuses == n.statuses
            && GetDone(n, p, index, correct, now).writers == m.writers && GetDone(n, p, index, correct, now).statuses == n.statuses
  {
  }

  lemma {:induction false} AdoptBalances(s: State, index: nat, generation: int, due: int)
    requires Balanced(s)
    ensures Balanced(Adopt(s, index, generation, due))
  {
    MeasuredPut(s.connections, index, Connection(generation, due, 0, 0, None));
  }

  lemma {:induction false} ExpireBalances(s: State, index: nat, now: int)
    requires Balanced(s) && index in s.connections
    ensures Balanced(Expire(s, index, now)) && index in Expire(s, index, now).connections
  {
    MeasuredPut(s.connections, index, s.connections[index].(pending := None));
  }

  lemma {:induction false} StartBalances(config: Config, s: State, index: nat, backpressure: bool, now: int)
    requires Balanced(s) && index in s.connections
    ensures Balanced(Start(config, s, index, backpressure, now))
  {
    MeasuredPut(s.connections, index, Start(config, s, index, backpressure, now).connections[index]);
  }

  lemma {:induction false} ShutdownBalances(s: State)
    requires Balanced(s)
    ensures Balanced(ShutdownStep(s)) && Measured(ShutdownStep(s).connections) == {}
  {
  }

  datatype Action =
    | DoCancel(index: nat, generation: int)
    | DoSendFailed(index: nat, generation: int, id: nat)
    | DoObserve(index: nat, generation: int, reply: Option<Reply>, now: int)
    | DoTick(index: nat, generation: int, backpressure: bool, started: bool, due: int, now: int)
    | DoMeasure(started: bool, now: int)
    | DoShutdown

  predicate Possible(a: Action) { a.DoObserve? && a.reply.Some? ==> WellFormed(a.reply.value) }

  function Act(config: Config, s: State, a: Action): State
    requires Shaped(s) && Possible(a)
  {
    match a
    case DoCancel(index, generation) => CancelStep(s, index, generation)
    case DoSendFailed(index, generation, id) => SendFailedStep(s, index, generation, id)
    case DoObserve(index, generation, reply, now) => ObserveStep(config, s, index, generation, reply, now)
    case DoTick(index, generation, backpressure, started, due, now) =>
      TickStep(config, s, index, generation, backpressure, started, due, now)
    case DoMeasure(started, now) => Begun(s, started, now)
    case DoShutdown => ShutdownStep(s)
  }

  /** The id of the request that a step issues for this client, if any. */
  function Issued(config: Config, s: State, a: Action, index: nat): Option<nat>
    requires Shaped(s)
  {
    match a
    case DoObserve(i, generation, reply, _) =>
      if i == index && Continues(s, i, generation, reply) then Some(NextId(s.connections[i].nextId)) else None
    case DoTick(i, generation, backpressure, started, due, now) =>
      var r := Readied(s, i, generation, started, due, now);
      if i == index && Starts(config, r, i, backpressure, now) then Some(NextId(r.connections[i].nextId)) else None
    case _ => None
  }

  lemma {:induction false} ActBalances(config: Config, s: State, a: Action)
    requires Balanced(s) && Possible(a)
    ensures Balanced(Act(config, s, a))
  {
    match a
    case DoCancel(index, generation) => CancelBalances(s, index, generation);
    case DoSendFailed(index, generation, id) => SendFailedBalances(s, index, generation, id);
    case DoObserve(index, generation, reply, now) => ObserveBalances(config, s, index, generation, reply, now);
    case DoTick(index, generation, backpressure, started, due, now) =>
      var b := Begun(s, started, now);
      AdoptBalances(b, index, generation, due);
      var c := Adopt(b, index, generation, due);
      ExpireBalances(c, index, now);
      StartBalances(config, Expire(c, index, now), index, backpressure, now);
    case DoMeasure(_, _) =>
    case DoShutdown => ShutdownBalances(s);
  }

  lemma {:induction false} SumOfZeros(n: nat)
    ensures Sum(seq(n, _ => 0)) == 0
  {
    if n > 0 {
      assert seq(n, _ => 0)[1..] == seq(n - 1, _ => 0);
      SumOfZeros(n - 1);
    }
  }

  lemma {:induction false} NoStatuses()
    ensures Sum(NoMetrics().statuses) == 0 && Sum(NoMetrics().statuses[1..]) == 0
  {
    SumOfZeros(STATUSES);
    SumOfZeros(STATUSES - 1);
    hide Sum;
    assert NoMetrics().statuses[1..] == seq(STATUSES - 1, _ => 0);
  }

  lemma {:induction false} NothingMeasured()
    ensures Measured(Idle().connections) == {}
  {
  }

  lemma {:induction false} IdleIsBalanced()
    ensures Balanced(Idle())
  {
    NoStatuses();
    NothingMeasured();
    hide Sum, Measured;
  }

  ghost function Run(config: Config, actions: seq<Action>): (s: State)
    requires forall a <- actions :: Possible(a)
    ensures Balanced(s)
  {
    if actions == [] then IdleIsBalanced(); Idle()
    else
      var s := Run(config, actions[..|actions| - 1]);
      ActBalances(config, s, actions[|actions| - 1]);
      Act(config, s, actions[|actions| - 1])
  }

  /**
   * In every interleaving of ticks, replies, send failures, cancels, replacements, timeouts and
   * shutdown, every Set sent while measuring is accounted for exactly once.
   */
  lemma {:induction false} EveryChainIsAccountedFor(config: Config, actions: seq<Action>)
    requires forall a <- actions :: Possible(a)
    ensures var s := Run(config, actions);
            var m := s.metrics;
            && |m.statuses| == STATUSES
            && m.setsSent == m.verified + m.corrupt + Failures(m) + m.sendErrors + m.timeouts + m.canceled + |Measured(s.connections)|
            && m.getsSent == m.setsOk && m.getsOk == m.verified + m.corrupt
            && m.statuses[0] == m.setsOk + m.getsOk
            && |m.setLatency| + |m.getLatency| == Sum(m.statuses) && |m.cycleLatency| == m.verified
            && m.verifiedWriters <= m.writers
  {
  }

  /** After a shutdown nothing is left pending, so the counters alone account for every Set. */
  lemma {:induction false} ShutdownClosesTheBooks(config: Config, actions: seq<Action>)
    requires forall a <- actions :: Possible(a)
    ensures Balanced(Act(config, Run(config, actions), DoShutdown))
    ensures var m := Act(config, Run(config, actions), DoShutdown).metrics;
            m.setsSent == m.verified + m.corrupt + Failures(m) + m.sendErrors + m.timeouts + m.canceled
  {
  }

  // ---- Request ids ----

  /** The id a connection gives its n-th request, counted from one. */
  function NthId(n: nat): (r: nat)
    ensures r < 65536
  {
    if n == 0 then 0 else NextId(NthId(n - 1))
  }

  lemma {:induction false} NthIdIs(n: nat)
    requires n > 0
    ensures NthId(n) == 1 + (n - 1) % 65535
  {
    if n > 1 {
      NthIdIs(n - 1);
    }
  }

  /** Two requests share an id exactly when whole cycles lie between them. */
  lemma {:induction false} IdsRepeatAfterCycle(n: nat, later: nat)
    requires 0 < n <= later
    ensures NthId(n) == NthId(later) <==> (later - n) % 65535 == 0
  {
    NthIdIs(n);
    NthIdIs(later);
  }

  /** The client's connection before the step is still its connection after it. */
  predicate Stays(s: State, t: State, index: nat) {
    index in s.connections && index in t.connections && s.connections[index].generation == t.connections[index].generation
  }

  /** The ids of the requests that the client's present connection has issued, oldest first. */
  ghost function Sent(config: Config, actions: seq<Action>, index: nat): seq<nat>
    requires forall a <- actions :: Possible(a)
  {
    if actions == [] then []
    else
      var front, a := actions[..|actions| - 1], actions[|actions| - 1];
      var s := Run(config, front);
      var t, id := Act(config, s, a), Issued(config, s, a, index);
      (if Stays(s, t, index) then Sent(config, front, index) else []) + (if id.Some? then [id.value] else [])
  }

  /** The ids are the first ones of the cycle, and a pending request is the newest. */
  ghost predicate Numbered(ids: seq<nat>, cs: Connections, index: nat) {
    && (forall k :: 0 <= k < |ids| ==> ids[k] == NthId(k + 1))
    && (index in cs ==> cs[index].nextId == NthId(|ids|))
    && (index in cs && cs[index].pending.Some? ==> ids != [] && cs[index].pending.value.id == cs[index].nextId)
    && (index !in cs ==> ids == [])
  }

  /** A step that issues a request takes the next id for it; any other at most ends the pending one. */
  ghost predicate Advances(s: State, t: State, id: Option<nat>, index: nat) {
    if index in t.connections then
      var c := t.connections[index];
      var before := if Stays(s, t, index) then s.connections[index].nextId else 0;
      && before < 65536
      && (id.Some? ==> c.nextId == id.value == NextId(before) && (c.pending.Some? ==> c.pending.value.id == id.value))
      && (id.None? ==> c.nextId == before && (c.pending.None? || (Stays(s, t, index) && c.pending == s.connections[index].pending)))
    else id.None?
  }

  lemma {:induction false} TickAdvances(config: Config, s: State, i: nat, generation: int, backpressure: bool, started: bool, due: int, now: int, index: nat)
    requires Shaped(s)
    ensures var a := DoTick(i, generation, backpressure, started, due, now);
            Advances(s, Act(config, s, a), Issued(config, s, a, index), index)
  {
  }

  lemma {:induction false} ActAdvances(config: Config, s: State, a: Action, index: nat)
    requires Shaped(s) && Possible(a)
    ensures Advances(s, Act(config, s, a), Issued(config, s, a, index), index)
  {
    if a.DoTick? {
      TickAdvances(config, s, a.index, a.generation, a.backpressure, a.started, a.due, a.now, index);
    }
  }

  lemma {:induction false} AdvanceKeepsNumbered(ids: seq<nat>, s: State, t: State, id: Option<nat>, index: nat)
    requires Numbered(ids, s.connections, index) && Advances(s, t, id, index)
    ensures Numbered((if Stays(s, t, index) then ids else []) + (if id.Some? then [id.value] else []), t.connections, index)
  {
    var kept := if Stays(s, t, index) then ids else [];
    assert NthId(|kept| + 1) == NextId(NthId(|kept|));
  }

  /** So the ids of a connection count up through the cycle in every run. */
  lemma {:induction false} SentIsNumbered(config: Config, actions: seq<Action>, index: nat)
    requires forall a <- actions :: Possible(a)
    ensures Numbered(Sent(config, actions, index), Run(config, actions).connections, index)
    decreases |actions|
  {
    if actions != [] {
      hide Numbered, Act, Issued, Advances, Balanced;
      var front, a := actions[..|actions| - 1], actions[|actions| - 1];
      SentIsNumbered(config, front, index);
      var s := Run(config, front);
      BalancedIsShaped(s);
      ActAdvances(config, s, a, index);
      AdvanceKeepsNumbered(Sent(config, front, index), s, Act(config, s, a), Issued(config, s, a, index), index);
    }
  }

  lemma {:induction false} BalancedIsShaped(s: State)
    requires Balanced(s)
    ensures Shaped(s)
  {
  }

  /**
   * In every run, a reply that carries the id of an earlier request of the connection is mistaken
   * for the answer to the pending one only if whole cycles of 65535 requests lie between the two.
   * Otherwise it is counted as stale and changes nothing else.
   */
  lemma {:induction false} LateReplyIsStale(config: Config, actions: seq<Action>, index: nat, generation: int, k: nat, r: Reply, now: int)
    requires (forall a <- actions :: Possible(a)) && WellFormed(r)
    requires IsAt(Run(config, actions).connections, index, generation)
    requires k < |Sent(config, actions, index)| && r.id == Sent(config, actions, index)[k]
    ensures var s, later := Run(config, actions), |Sent(config, actions, index)| - 1 - k;
            && (Awaits(s.connections[index], r.id) <==> s.connections[index].pending.Some? && later % 65535 == 0)
            && (later % 65535 != 0 ==>
                  ObserveStep(config, s, index, generation, Some(r), now) == s.(metrics := s.metrics.(stale := s.metrics.stale + 1)))
  {
    SentIsNumbered(config, actions, index);
    var s := Run(config, actions);
    IdsRepeatAfterCycle(k + 1, |Sent(config, actions, index)|);
    hide Run, Sent, NthId, Ledger, Measured;
  }
}
