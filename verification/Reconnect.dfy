/**
 * Reconnecting failed clients: exponential backoff per client, reset by a connection, over every
 * order in which attempts start, fail, time out and succeed.
 */
module Reconnect {
  import opened Bits
  import opened Clock
  import opened Packets

  const MAX_FAILURES := 0xFFFF_FFFF

  /** How many failures in a row, and when the next attempt is allowed. */
  datatype Retry = Retry(failures: nat, deadline: int)

  datatype State = State(pendingSince: map<nat, int>, retryAfter: map<nat, Retry>)

  const IDLE := State(map[], map[])

  datatype Progress = Connecting | Backoff | Failed(delay: nat, timedOut: bool) | Ready

  /** `reconnect_retry_delay`: one second, doubled with every failure up to 64. */
  function RetryDelay(failures: nat): nat {
    var steps := if failures == 0 then 0 else if failures - 1 < 6 then failures - 1 else 6;
    Pow2(steps) * SECOND
  }

  function Without<T>(m: map<nat, T>, index: nat): map<nat, T> { m - {index} }

  function Connected(s: State, index: nat): State { State(Without(s.pendingSince, index), Without(s.retryAfter, index)) }

  function CancelPending(s: State, index: nat): State { s.(pendingSince := Without(s.pendingSince, index)) }

  function AttemptStarted(s: State, index: nat, now: int): State { s.(pendingSince := s.pendingSince[index := now]) }

  function NextFailures(s: State, index: nat): nat {
    if index !in s.retryAfter then 1
    else if s.retryAfter[index].failures >= MAX_FAILURES then MAX_FAILURES
    else s.retryAfter[index].failures + 1
  }

  function AttemptFailed(s: State, index: nat, now: int): State {
    var failures := NextFailures(s, index);
    State(Without(s.pendingSince, index), s.retryAfter[index := Retry(failures, now + RetryDelay(failures))])
  }

  function Observe(s: State, index: nat, inUse: bool, now: int, timeout: nat): (State, Progress) {
    if index in s.pendingSince then
      if inUse && Elapsed(now, s.pendingSince[index]) < timeout then (s, Connecting)
      else (AttemptFailed(s, index, now), Failed(RetryDelay(NextFailures(s, index)), inUse))
    else if inUse then (AttemptStarted(s, index, now), Connecting)
    else if index in s.retryAfter && now < s.retryAfter[index].deadline then (s, Backoff)
    else (s, Ready)
  }

  /** The state as the monitor updates it in place. */
  class FailureReconnectState {
    var pendingSince: map<nat, int>
    var retryAfter: map<nat, Retry>

    constructor ()
      ensures Contents() == IDLE
    {
      pendingSince, retryAfter := map[], map[];
    }

    function Contents(): State
      reads this
    {
      State(pendingSince, retryAfter)
    }

    method NoteConnected(index: nat)
      modifies this
      ensures Contents() == Connected(old(Contents()), index)
    {
      pendingSince := pendingSince - {index};
      retryAfter := retryAfter - {index};
    }

    method Cancel(index: nat)
      modifies this`pendingSince
      ensures Contents() == CancelPending(old(Contents()), index)
    {
      pendingSince := pendingSince - {index};
    }

    method NoteStarted(index: nat, now: int)
      modifies this`pendingSince
      ensures Contents() == AttemptStarted(old(Contents()), index, now)
    {
      pendingSince := pendingSince[index := now];
    }

    method NoteFailed(index: nat, now: int) returns (delay: nat)
      modifies this
      ensures Contents() == AttemptFailed(old(Contents()), index, now)
      ensures delay == RetryDelay(NextFailures(old(Contents()), index))
    {
      pendingSince := pendingSince - {index};
      var failures := 1;
      if index in retryAfter {
        failures := if retryAfter[index].failures >= MAX_FAILURES then MAX_FAILURES else retryAfter[index].failures + 1;
      }
      delay := RetryDelay(failures);
      retryAfter := retryAfter[index := Retry(failures, now + delay)];
    }

    method Look(index: nat, inUse: bool, now: int, timeout: nat) returns (progress: Progress)
      modifies this
      ensures (Contents(), progress) == Observe(old(Contents()), index, inUse, now, timeout)
    {
      if index in pendingSince {
        if inUse && Elapsed(now, pendingSince[index]) < timeout {
          return Connecting;
        }
        var delay := NoteFailed(index, now);
        return Failed(delay, inUse);
      }
      if inUse {
        pendingSince := pendingSince[index := now];
        return Connecting;
      }
      if index in retryAfter && now < retryAfter[index].deadline {
        return Backoff;
      }
      return Ready;
    }
  }

  // ---- Over every run ----

  datatype Event =
    | DidConnect(index: nat)
    | DidCancel(index: nat)
    | DidStart(index: nat, now: int)
    | DidFail(index: nat, now: int)
    | DidLook(index: nat, inUse: bool, now: int, timeout: nat)

  function Step(s: State, e: Event): State {
    match e
    case DidConnect(index) => Connected(s, index)
    case DidCancel(index) => CancelPending(s, index)
    case DidStart(index, now) => AttemptStarted(s, index, now)
    case DidFail(index, now) => AttemptFailed(s, index, now)
    case DidLook(index, inUse, now, timeout) => Observe(s, index, inUse, now, timeout).0
  }

  function Run(events: seq<Event>): State {
    if events == [] then IDLE else Step(Run(events[..|events| - 1]), events[|events| - 1])
  }

  /** The event counts a failed attempt of this client, directly or because a look found it so. */
  predicate CountsFailure(s: State, e: Event, index: nat) {
    e.index == index && (e.DidFail? || (e.DidLook? && Observe(s, index, e.inUse, e.now, e.timeout).1.Failed?))
  }

  /** The times of the client's failures since it was last seen connected. */
  function FailuresOf(events: seq<Event>, index: nat): seq<int> {
    if events == [] then []
    else
      var before, e := events[..|events| - 1], events[|events| - 1];
      if e == DidConnect(index) then []
      else if CountsFailure(Run(before), e, index) then FailuresOf(before, index) + [e.now]
      else FailuresOf(before, index)
  }

  /** The stored count is the number of failures since the last connection, and so is the deadline. */
  predicate Remembers(s: State, failures: seq<int>, index: nat) {
    && (index in s.retryAfter <==> failures != [])
    && (failures != [] ==>
          var k := if |failures| < MAX_FAILURES then |failures| else MAX_FAILURES;
          s.retryAfter[index] == Retry(k, failures[|failures| - 1] + RetryDelay(k)))
  }

  lemma {:induction false} RunRemembers(events: seq<Event>, index: nat)
    ensures Remembers(Run(events), FailuresOf(events, index), index)
    decreases |events|
  {
    hide RetryDelay;
    if events != [] {
      RunRemembers(events[..|events| - 1], index);
    }
  }

  /**
   * In every run, the k-th consecutive failure bars the client from trying again for two to the
   * power k-1 seconds, at most 64, counted from that failure.
   */
  lemma {:induction false} NeverReadyEarly(events: seq<Event>, index: nat, inUse: bool, now: int, timeout: nat)
    requires Observe(Run(events), index, inUse, now, timeout).1 == Ready
    ensures var failures := FailuresOf(events, index);
            failures != [] ==> now - failures[|failures| - 1] >= Pow2(if |failures| < 7 then |failures| - 1 else 6) * SECOND
  {
    RunRemembers(events, index);
  }

  /** Conversely, once that time has passed and no attempt is under way, the client is ready. */
  lemma {:induction false} ReadyInTime(events: seq<Event>, index: nat, now: int, timeout: nat)
    requires index !in Run(events).pendingSince
    requires var failures := FailuresOf(events, index);
             failures != [] ==> now - failures[|failures| - 1] >= Pow2(if |failures| < 7 then |failures| - 1 else 6) * SECOND
    ensures Observe(Run(events), index, false, now, timeout).1 == Ready
  {
    RunRemembers(events, index);
  }

  /** Attempts of the client seen to begin. */
  function StartsOf(events: seq<Event>, index: nat): nat {
    if events == [] then 0
    else
      var before, e := events[..|events| - 1], events[|events| - 1];
      var begun := e.index == index && (e.DidStart? || (e.DidLook? && e.inUse && index !in Run(before).pendingSince));
      StartsOf(before, index) + if begun then 1 else 0
  }

  /** Failures counted against an attempt under way, whether reported or found by a look. */
  function AttemptsFailed(events: seq<Event>, index: nat): nat {
    if events == [] then 0
    else
      var before, e := events[..|events| - 1], events[|events| - 1];
      var hit := CountsFailure(Run(before), e, index) && index in Run(before).pendingSince;
      AttemptsFailed(before, index) + if hit then 1 else 0
  }

  /** Each attempt is counted as failed at most once: its failures and the one pending never exceed the starts. */
  lemma {:induction false} FailedAtMostOnce(events: seq<Event>, index: nat)
    ensures AttemptsFailed(events, index) + (if index in Run(events).pendingSince then 1 else 0) <= StartsOf(events, index)
    decreases |events|
  {
    hide RetryDelay;
    if events != [] {
      FailedAtMostOnce(events[..|events| - 1], index);
    }
  }
}
