/**
 * The order of avatar frames of one peer, told from a single wrapping sequence byte. After a
 * silence the byte proves nothing, and order is regained only from full frames.
 */
module ObserverSequences {
  import opened Clock
  import opened Packets

  const RESYNC_AFTER := 2 * SECOND
  const CONFIRM_WITHIN := 10 * SECOND

  datatype Decision = Apply | ApplyAfterGap | Reject | Ambiguous | Pending(began: bool) | Resynced

  datatype Candidate = Candidate(sequence: byte, at: int)

  datatype Tracker = Tracker(lastAppliedAt: Option<int>, resyncing: bool, candidate: Option<Candidate>)

  const UNTRACKED := Tracker(None, false, None)

  function WrappingSub(a: byte, b: byte): byte { (a - b) % 256 }

  predicate Advances(sequence: byte, from: byte) { 1 <= WrappingSub(sequence, from) < 128 }

  predicate Silent(t: Tracker, now: int) {
    t.lastAppliedAt.Some? && Elapsed(now, t.lastAppliedAt.value) >= RESYNC_AFTER
  }

  predicate Begins(t: Tracker, sequence: byte, last: Option<byte>, full: bool, now: int) {
    !t.resyncing && Silent(t, now) && !(full && last.Some? && Advances(sequence, last.value))
  }

  /** The resynchronizing half of `consider`: a full frame becomes or confirms the candidate. */
  function Resync(candidate: Option<Candidate>, sequence: byte, full: bool, now: int): (Option<Candidate>, bool) {
    if !full then (candidate, false)
    else if candidate.Some? && Elapsed(now, candidate.value.at) < CONFIRM_WITHIN && Advances(sequence, candidate.value.sequence) then (None, true)
    else if candidate.Some? && Elapsed(now, candidate.value.at) < CONFIRM_WITHIN && sequence == candidate.value.sequence then (candidate, false)
    else (Some(Candidate(sequence, now)), false)
  }

  function Decide(t: Tracker, sequence: byte, last: Option<byte>, full: bool, now: int): (Tracker, Decision) {
    var began := Begins(t, sequence, last, full, now);
    if began || t.resyncing then
      var (candidate, confirmed) := Resync(if began then None else t.candidate, sequence, full, now);
      (Tracker(t.lastAppliedAt, !confirmed, candidate), if confirmed then Resynced else Pending(began))
    else if last.Some? && sequence == last.value then (t, Reject)
    else if last.Some? && !Advances(sequence, last.value) then (t, Ambiguous)
    else (t, if Silent(t, now) then ApplyAfterGap else Apply)
  }

  predicate Accepts(d: Decision) { d.Apply? || d.ApplyAfterGap? || d.Resynced? }

  /** The tracker as the client updates it in place. */
  class ObserverSequence {
    var lastAppliedAt: Option<int>
    var resyncing: bool
    var candidate: Option<Candidate>

    constructor ()
      ensures State() == UNTRACKED
    {
      lastAppliedAt, resyncing, candidate := None, false, None;
    }

    function State(): Tracker
      reads this
    {
      Tracker(lastAppliedAt, resyncing, candidate)
    }

    method Consider(sequence: byte, last: Option<byte>, full: bool, now: int) returns (decision: Decision)
      modifies this
      ensures (State(), decision) == Decide(old(State()), sequence, last, full, now)
    {
      var delta := if last.Some? then Some(WrappingSub(sequence, last.value)) else None;
      var silence := lastAppliedAt.Some? && Elapsed(now, lastAppliedAt.value) >= RESYNC_AFTER;
      var began := !resyncing && silence && (!full || !(delta.Some? && 1 <= delta.value <= 127));
      if began {
        resyncing, candidate := true, None;
      }
      if resyncing {
        if full {
          if candidate.Some? {
            var advance := WrappingSub(sequence, candidate.value.sequence);
            if Elapsed(now, candidate.value.at) < CONFIRM_WITHIN && advance != 0 && advance < 128 {
              resyncing, candidate := false, None;
              return Resynced;
            }
            if advance == 0 && Elapsed(now, candidate.value.at) < CONFIRM_WITHIN {
              return Pending(began);
            }
          }
          candidate := Some(Candidate(sequence, now));
        }
        return Pending(began);
      }
      if delta == Some(0) {
        return Reject;
      } else if delta.Some? && delta.value >= 128 {
        return Ambiguous;
      } else if silence {
        return ApplyAfterGap;
      }
      return Apply;
    }

    method Applied(now: int)
      modifies this`lastAppliedAt
      ensures State() == old(State()).(lastAppliedAt := Some(now))
    {
      lastAppliedAt := Some(now);
    }
  }

  // ---- Against an unbounded counter whose low byte is what is sent ----

  /** A frame with the true number behind its byte, and whether it can be decoded when accepted. */
  datatype Frame = Frame(number: nat, full: bool, usable: bool, at: int)

  datatype Feed = Feed(tracker: Tracker, last: Option<nat>, applied: seq<nat>)

  const NOTHING_SEEN := Feed(UNTRACKED, None, [])

  function LowByte(n: nat): byte { n % 256 }

  function Verdict(f: Feed, x: Frame): (Tracker, Decision) {
    Decide(f.tracker, LowByte(x.number), if f.last.Some? then Some(LowByte(f.last.value)) else None, x.full, x.at)
  }

  function Next(f: Feed, x: Frame): Feed {
    var (t, d) := Verdict(f, x);
    if Accepts(d) && x.usable then Feed(t.(lastAppliedAt := Some(x.at)), Some(x.number), f.applied + [x.number])
    else f.(tracker := t)
  }

  function Watch(f: Feed, frames: seq<Frame>): Feed
    decreases |frames|
  {
    if frames == [] then f else Watch(Next(f, frames[0]), frames[1..])
  }

  /** The half of the byte's range that tells newer from older. */
  predicate WithinHalfRange(n: nat, last: nat) { -128 <= n - last <= 127 }

  /** No ambiguity: not resynchronizing, no silence, the true distance within half a range. */
  predicate Clear(f: Feed, x: Frame) {
    && !f.tracker.resyncing && !Silent(f.tracker, x.at)
    && (f.last.Some? ==> WithinHalfRange(x.number, f.last.value))
  }

  /** Without ambiguity the byte decides exactly as the unbounded number would. */
  lemma {:induction false} AcceptsExactlyNewer(f: Feed, x: Frame)
    requires Clear(f, x)
    ensures var (t, d) := Verdict(f, x);
            && t == f.tracker
            && (Accepts(d) <==> f.last.None? || x.number > f.last.value)
            && (d == Reject <==> f.last == Some(x.number))
            && (d == Ambiguous <==> f.last.Some? && x.number < f.last.value)
  {
  }

  /** Outside the half range the verdict is wrong both ways: the range cannot be widened. */
  lemma {:induction false} HalfRangeIsTight(f: Feed, x: Frame)
    requires !f.tracker.resyncing && !Silent(f.tracker, x.at) && f.last.Some?
    ensures x.number == f.last.value + 128 ==> !Accepts(Verdict(f, x).1)
    ensures x.number == f.last.value - 129 ==> Accepts(Verdict(f, x).1)
  {
  }

  /** Every frame of the run meets the tracker without ambiguity. */
  predicate AllClear(f: Feed, frames: seq<Frame>)
    decreases |frames|
  {
    frames != [] ==> Clear(f, frames[0]) && AllClear(Next(f, frames[0]), frames[1..])
  }

  /** The decodable frames that are newer than every decodable one before them. */
  function Newest(best: Option<nat>, frames: seq<Frame>): seq<nat>
    decreases |frames|
  {
    if frames == [] then []
    else if frames[0].usable && (best.None? || frames[0].number > best.value) then
      [frames[0].number] + Newest(Some(frames[0].number), frames[1..])
    else Newest(best, frames[1..])
  }

  /** Over a whole run without ambiguity, exactly the strictly newer frames are applied. */
  lemma {:induction false} WatchKeepsNewest(f: Feed, frames: seq<Frame>)
    requires AllClear(f, frames)
    ensures Watch(f, frames).applied == f.applied + Newest(f.last, frames)
    decreases |frames|
  {
    if frames != [] {
      AcceptsExactlyNewer(f, frames[0]);
      WatchKeepsNewest(Next(f, frames[0]), frames[1..]);
    }
  }

  // ---- After silence ----

  function After(frames: seq<Frame>): Feed {
    if frames == [] then NOTHING_SEEN else Next(After(frames[..|frames| - 1]), frames[|frames| - 1])
  }

  function DecisionAt(frames: seq<Frame>, k: nat): Decision
    requires k < |frames|
  {
    Verdict(After(frames[..k]), frames[k]).1
  }

  /** Frame j is full, was held back, and everything since has been held back. */
  predicate HeldSince(frames: seq<Frame>, j: nat, k: nat) {
    j < k <= |frames| && frames[j].full && forall i :: j <= i < k ==> DecisionAt(frames, i).Pending?
  }

  lemma {:induction false} CandidateIsFullFrame(frames: seq<Frame>, k: nat) returns (j: nat)
    requires k <= |frames|
    ensures After(frames[..k]).tracker.candidate.Some? ==>
              && HeldSince(frames, j, k) && After(frames[..k]).tracker.resyncing
              && After(frames[..k]).tracker.candidate == Some(Candidate(LowByte(frames[j].number), frames[j].at))
  {
    j := 0;
    if k > 0 {
      j := CandidateIsFullFrame(frames, k - 1);
      assert frames[..k][..k - 1] == frames[..k - 1];
      if After(frames[..k]).tracker.candidate != After(frames[..k - 1]).tracker.candidate {
        j := k - 1;
      }
    }
  }

  /**
   * Order is regained only by two full frames, the second advancing on the first within ten
   * seconds, with nothing applied in between: no delta and no single full frame does it.
   */
  lemma {:induction false} ResyncNeedsTwoFullFrames(frames: seq<Frame>, k: nat) returns (j: nat)
    requires k < |frames| && DecisionAt(frames, k) == Resynced
    ensures HeldSince(frames, j, k) && frames[k].full
    ensures Advances(LowByte(frames[k].number), LowByte(frames[j].number))
    ensures frames[k].at - frames[j].at < CONFIRM_WITHIN
  {
    j := CandidateIsFullFrame(frames, k);
  }

  /** Deltas met while resynchronizing change nothing. */
  lemma {:induction false} DeltasWait(f: Feed, frames: seq<Frame>)
    requires f.tracker.resyncing && forall x <- frames :: !x.full
    ensures Watch(f, frames) == f
    decreases |frames|
  {
    if frames != [] {
      assert frames[0] in frames;
      assert Next(f, frames[0]) == f;
      DeltasWait(f, frames[1..]);
    }
  }
}
