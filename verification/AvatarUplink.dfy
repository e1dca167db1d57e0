/**
 * What a client sends of its avatar: full frames, and in between deltas against the last full
 * frame; and exactly when a receiver that keeps the last full frame shows what was last sent.
 */
module AvatarUplink {
  import opened Packets
  import opened Bits
  import opened Channels
  import D = DeltaCodec
  import L = AvatarLayout

  const PAYLOAD_SIZE := L.PayloadBytes(L.HIGH)
  const HEARTBEAT := 5.0
  const KEYFRAME_INTERVAL := 0.5

  const UNRELIABLE := 0
  const ADDITIONAL_DATA := 4
  const CONTROL_BIT := 0x80
  const NACK_MILLIS := 1000

  // ---- The codec on bytes ----

  function BuildDelta(base: seq<byte>, current: seq<byte>): seq<byte>
    requires |base| == |current| == PAYLOAD_SIZE
  {
    L.LayoutIsComplete(L.HIGH);
    ToBytes(D.Build(L.LayoutOf(L.HIGH), 8 * PAYLOAD_SIZE, OfBytes(base), OfBytes(current)))
  }

  function ApplyDelta(base: seq<byte>, delta: seq<byte>): Option<seq<byte>> {
    L.LayoutIsComplete(L.HIGH);
    var r := D.Apply(L.LayoutOf(L.HIGH), 8 * PAYLOAD_SIZE, OfBytes(base), OfBytes(delta));
    if r.None? || |r.value.0| % 8 != 0 then None else Some(ToBytes(r.value.0))
  }

  /** What applying a delta on bytes gives, in bits. */
  function AppliedBits(held: seq<byte>, base: seq<byte>, current: seq<byte>, trailing: seq<byte>): Option<(seq<bool>, nat)>
    requires |base| == |current| == PAYLOAD_SIZE
  {
    L.LayoutIsComplete(L.HIGH);
    var l, size := L.LayoutOf(L.HIGH), 8 * PAYLOAD_SIZE;
    D.Apply(l, size, OfBytes(held), D.Build(l, size, OfBytes(base), OfBytes(current)) + OfBytes(trailing))
  }

  lemma {:induction false} AppliesOnBits(held: seq<byte>, base: seq<byte>, current: seq<byte>, trailing: seq<byte>)
    requires |base| == |current| == PAYLOAD_SIZE
    ensures var r := AppliedBits(held, base, current, trailing);
            ApplyDelta(held, BuildDelta(base, current) + trailing)
            == if r.None? || |r.value.0| % 8 != 0 then None else Some(ToBytes(r.value.0))
  {
    L.LayoutIsComplete(L.HIGH);
    hide D.Build, D.Apply, L.LayoutOf, OfBytes, ToBytes, D.LegalLayout, D.Covers;
    var delta := D.Build(L.LayoutOf(L.HIGH), 8 * PAYLOAD_SIZE, OfBytes(base), OfBytes(current));
    OfBytesConcat(ToBytes(delta), trailing);
    BytesOfBits(delta);
  }

  lemma {:induction false} SameBitsSameBytes(bits: seq<bool>, bytes: seq<byte>)
    requires |bits| % 8 == 0
    ensures ToBytes(bits) == bytes <==> bits == OfBytes(bytes)
  {
    hide ToBytes, OfBytes;
    BytesOfBits(bits);
    BitsOfBytes(bytes);
  }

  lemma {:induction false} AllOf(bytes: seq<byte>)
    requires |bytes| == PAYLOAD_SIZE
    ensures |OfBytes(bytes)| == 8 * PAYLOAD_SIZE && OfBytes(bytes)[..8 * PAYLOAD_SIZE] == OfBytes(bytes)
  {
    hide OfBytes;
  }

  lemma {:induction false} BitsInvert(base: seq<byte>, current: seq<byte>, trailing: seq<byte>)
    requires |base| == |current| == PAYLOAD_SIZE
    ensures AppliedBits(base, base, current, trailing).Some? && AppliedBits(base, base, current, trailing).value.0 == OfBytes(current)
  {
    L.LayoutIsComplete(L.HIGH);
    AllOf(base);
    AllOf(current);
    hide D.Build, D.Apply, L.LayoutOf, OfBytes, D.LegalLayout, D.Covers;
    D.ApplyInvertsBuild(L.LayoutOf(L.HIGH), 8 * PAYLOAD_SIZE, OfBytes(base), OfBytes(current), OfBytes(trailing));
  }

  /** On bytes as on bits, applying inverts building, whatever follows the delta. */
  lemma {:induction false} ApplyInvertsBuild(base: seq<byte>, current: seq<byte>, trailing: seq<byte>)
    requires |base| == |current| == PAYLOAD_SIZE
    ensures ApplyDelta(base, BuildDelta(base, current) + trailing) == Some(current)
  {
    hide AppliedBits, OfBytes, ToBytes, ApplyDelta, BuildDelta;
    AppliesOnBits(base, base, current, trailing);
    BitsInvert(base, current, trailing);
    BitsOfBytes(current);
  }

  /** In every channel the delta does not send raw, the held payload is like the base. */
  predicate Agrees(held: seq<byte>, base: seq<byte>, current: seq<byte>)
    requires |held| == |base| == |current| == PAYLOAD_SIZE
  {
    L.LayoutIsComplete(L.HIGH);
    D.Agrees(L.LayoutOf(L.HIGH), 8 * PAYLOAD_SIZE, OfBytes(held), OfBytes(base), OfBytes(current))
  }

  lemma {:induction false} BitsRightIffAgreeing(held: seq<byte>, base: seq<byte>, current: seq<byte>, trailing: seq<byte>)
    requires |held| == |base| == |current| == PAYLOAD_SIZE
    ensures var r := AppliedBits(held, base, current, trailing);
            r.Some? && |r.value.0| == 8 * PAYLOAD_SIZE && (r.value.0 == OfBytes(current) <==> Agrees(held, base, current))
  {
    L.LayoutIsComplete(L.HIGH);
    L.LayoutIsSeparate(L.HIGH);
    AllOf(held);
    AllOf(base);
    AllOf(current);
    hide D.Build, D.Apply, L.LayoutOf, OfBytes, D.LegalLayout, D.Covers, D.Separate, D.Agrees;
    D.RightOnlyOnAgreeingBase(L.LayoutOf(L.HIGH), 8 * PAYLOAD_SIZE, OfBytes(held), OfBytes(base), OfBytes(current), OfBytes(trailing));
  }

  /** A delta is applied to any payload, and is right exactly on those that agree with its base. */
  lemma {:induction false} RightOnlyOnAgreeingBase(held: seq<byte>, base: seq<byte>, current: seq<byte>, trailing: seq<byte>)
    requires |held| == |base| == |current| == PAYLOAD_SIZE
    ensures var r := ApplyDelta(held, BuildDelta(base, current) + trailing);
            r.Some? && (r == Some(current) <==> Agrees(held, base, current))
  {
    hide AppliedBits, OfBytes, ToBytes, ApplyDelta, BuildDelta, Agrees;
    AppliesOnBits(held, base, current, trailing);
    BitsRightIffAgreeing(held, base, current, trailing);
    SameBitsSameBytes(AppliedBits(held, base, current, trailing).value.0, current);
  }

  /** A delta that says nothing changed leaves any payload as it is. */
  lemma {:induction false} EmptyDeltaKeeps(held: seq<byte>, base: seq<byte>, trailing: seq<byte>)
    requires |held| == |base| == PAYLOAD_SIZE
    ensures ApplyDelta(held, BuildDelta(base, base) + trailing) == Some(held)
  {
    var l, size := L.LayoutOf(L.HIGH), 8 * PAYLOAD_SIZE;
    L.LayoutIsComplete(L.HIGH);
    hide D.Build, D.Apply, L.LayoutOf, OfBytes, ToBytes, D.LegalLayout, D.Covers, D.PatchFrom, ApplyDelta, BuildDelta;
    AppliesOnBits(held, base, base, trailing);
    D.AppliesBuilt(l, size, OfBytes(held), OfBytes(base), OfBytes(base), OfBytes(trailing));
    D.SamePatchesNothing(l, size, 0, OfBytes(held), OfBytes(base), OfBytes(held)[..size]);
    AllOf(held);
    BitsOfBytes(held);
  }

  // ---- The tick accumulator ----

  function Min(a: real, b: real): real { if a <= b then a else b }

  /** `unity_interval_tick_due`: the accumulator afterwards and whether the tick is due. */
  function TickDue(accumulator: real, delta: real, interval: real): (real, bool) {
    var a := Min(accumulator + delta, interval * 2.0);
    if a < interval then (a, false) else (if a - interval < 0.0 then 0.0 else a - interval, true)
  }

  function TotalTime(deltas: seq<real>): real { if deltas == [] then 0.0 else deltas[0] + TotalTime(deltas[1..]) }

  function TicksIn(accumulator: real, deltas: seq<real>, interval: real): nat
    decreases |deltas|
  {
    if deltas == [] then 0
    else
      var (a, due) := TickDue(accumulator, deltas[0], interval);
      (if due then 1 else 0) + TicksIn(a, deltas[1..], interval)
  }

  /** n times the interval. */
  function Repeated(n: nat, interval: real): real { if n == 0 then 0.0 else interval + Repeated(n - 1, interval) }

  /** However the frames fall, ticks never come faster than the interval. */
  lemma {:induction false} TicksNeverOutrunTime(accumulator: real, deltas: seq<real>, interval: real)
    requires accumulator >= 0.0 && interval >= 0.0 && forall k :: 0 <= k < |deltas| ==> deltas[k] >= 0.0
    ensures Repeated(TicksIn(accumulator, deltas, interval), interval) <= accumulator + TotalTime(deltas)
    decreases |deltas|
  {
    if deltas != [] {
      TicksNeverOutrunTime(TickDue(accumulator, deltas[0], interval).0, deltas[1..], interval);
    }
  }

  // ---- The sender ----

  datatype Sender = Sender(
    accumulator: real,
    sequence: byte,
    lastSent: Option<seq<byte>>,
    lastAngles: seq<real>,
    lastSentAt: real,
    keyframe: Option<seq<byte>>,
    keyframeSequence: byte,
    lastKeyframeAt: real,
    forceKeyframe: bool)

  const FIRST := Sender(0.0, 0, None, [], 0.0, None, 0, 0.0, false)

  /** One call: elapsed times, the interval in force, the new pose and what is asked for. */
  datatype Frame = Frame(
    delta: real, elapsed: real, interval: real,
    payload: seq<byte>, angles: seq<real>, rootDeadband: real, boneDeadband: real,
    deltasEnabled: bool, force: bool, additional: seq<byte>)

  function Abs(x: real): real { if x < 0.0 then -x else x }

  predicate HeartbeatDue(s: Sender, x: Frame) { s.lastSent.None? || x.elapsed - s.lastSentAt >= HEARTBEAT }

  /** The root and every bone moved too little to show. */
  predicate WithinDeadband(s: Sender, x: Frame) {
    && |x.angles| > 0 && |s.lastAngles| == |x.angles|
    && Abs(x.angles[0] - s.lastAngles[0]) <= x.rootDeadband
    && forall k :: 1 <= k < |x.angles| ==> Abs(x.angles[k] - s.lastAngles[k]) <= x.boneDeadband
  }

  predicate Suppressed(s: Sender, x: Frame) {
    !HeartbeatDue(s, x) && (s.lastSent == Some(x.payload) || WithinDeadband(s, x))
  }

  predicate KeyframeDue(s: Sender, x: Frame) {
    || x.force || s.forceKeyframe || !x.deltasEnabled || s.keyframe.None?
    || x.elapsed - s.lastKeyframeAt >= KEYFRAME_INTERVAL
  }

  predicate Shaped(s: Sender) { s.keyframe.Some? ==> |s.keyframe.value| == PAYLOAD_SIZE }

  predicate ShapedFrame(x: Frame) { |x.payload| == PAYLOAD_SIZE }

  predicate SendsFull(s: Sender, x: Frame)
    requires Shaped(s) && ShapedFrame(x)
  {
    KeyframeDue(s, x) || |BuildDelta(s.keyframe.value, x.payload)| >= PAYLOAD_SIZE
  }

  function FullDatagram(sequence: byte, x: Frame): seq<byte> {
    [UNRELIABLE, if x.additional == [] then PLAYER_AVATAR_HIGH else PLAYER_AVATAR_HIGH_ADDITIONAL, sequence] + x.payload + x.additional
  }

  function DeltaDatagram(sequence: byte, keyframeSequence: byte, delta: seq<byte>, x: Frame): seq<byte> {
    [UNRELIABLE, DELTA_AVATAR, if x.additional == [] then L.HIGH else L.HIGH + ADDITIONAL_DATA, sequence, keyframeSequence]
    + delta + x.additional
  }

  /** The sender once it has noted a request for a keyframe and the time that has passed. */
  function Prepared(s: Sender, x: Frame): Sender {
    s.(forceKeyframe := s.forceKeyframe || x.force, accumulator := TickDue(s.accumulator, x.delta, x.interval).0)
  }

  /** Something goes out. */
  predicate Sends(s: Sender, x: Frame) { TickDue(s.accumulator, x.delta, x.interval).1 && !Suppressed(Prepared(s, x), x) }

  /** `write_unity_avatar_datagram_with_additional`. */
  function Write(s: Sender, x: Frame): (r: (Sender, Option<seq<byte>>))
    requires Shaped(s) && ShapedFrame(x)
    ensures Shaped(r.0)
  {
    if Sends(s, x) then Send(Prepared(s, x), x) else (Prepared(s, x), None)
  }

  /** The frame goes out, as a delta or in full; only a full one sent with deltas allowed is a keyframe. */
  function Send(t: Sender, x: Frame): (r: (Sender, Option<seq<byte>>))
    requires Shaped(t) && ShapedFrame(x)
    ensures Shaped(r.0)
  {
    var sent := t.(sequence := (t.sequence + 1) % 256, lastSent := Some(x.payload), lastAngles := x.angles, lastSentAt := x.elapsed);
    if !SendsFull(t, x) then
      (sent, Some(DeltaDatagram(t.sequence, t.keyframeSequence, BuildDelta(t.keyframe.value, x.payload), x)))
    else
      (if x.deltasEnabled then
         sent.(forceKeyframe := false, keyframe := Some(x.payload), keyframeSequence := t.sequence, lastKeyframeAt := x.elapsed)
       else sent.(forceKeyframe := false),
       Some(FullDatagram(t.sequence, x)))
  }

  /** The sender's state as the client updates it in place. */
  class PoseState {
    var accumulator: real
    var sequence: byte
    var lastSentPayload: seq<byte>
    var lastSentAngles: seq<real>
    var lastSentTime: real
    var hasLastSent: bool
    var keyframePayload: seq<byte>
    var keyframeSequence: byte
    var lastKeyframeTime: real
    var hasKeyframe: bool
    var forceKeyframe: bool

    constructor ()
      ensures State() == FIRST
    {
      accumulator, sequence, lastSentPayload, lastSentAngles, lastSentTime, hasLastSent := 0.0, 0, [], [], 0.0, false;
      keyframePayload, keyframeSequence, lastKeyframeTime, hasKeyframe, forceKeyframe := [], 0, 0.0, false, false;
    }

    function State(): Sender
      reads this
    {
      Sender(accumulator, sequence, if hasLastSent then Some(lastSentPayload) else None, lastSentAngles, lastSentTime,
             if hasKeyframe then Some(keyframePayload) else None, keyframeSequence, lastKeyframeTime, forceKeyframe)
    }

    method TickIsDue(delta: real, interval: real) returns (due: bool)
      modifies this`accumulator
      ensures (accumulator, due) == TickDue(old(accumulator), delta, interval)
    {
      accumulator := Min(accumulator + delta, interval * 2.0);
      if accumulator < interval {
        return false;
      }
      accumulator := if accumulator - interval < 0.0 then 0.0 else accumulator - interval;
      return true;
    }

    method WriteDatagram(x: Frame) returns (datagram: Option<seq<byte>>)
      requires Shaped(State()) && ShapedFrame(x)
      modifies this
      ensures (State(), datagram) == Write(old(State()), x) && Shaped(State())
    {
      hide BuildDelta, TickDue, WithinDeadband, Send;
      if x.force {
        forceKeyframe := true;
      }
      var due := TickIsDue(x.delta, x.interval);
      if !due {
        return None;
      }
      var heartbeat := !hasLastSent || x.elapsed - lastSentTime >= HEARTBEAT;
      var changed := !hasLastSent || x.payload != lastSentPayload;
      if !heartbeat && !changed {
        return None;
      }
      if !heartbeat && hasLastSent && WithinDeadband(State(), x) {
        return None;
      }
      datagram := SendDatagram(x);
    }

    method SendDatagram(x: Frame) returns (datagram: Option<seq<byte>>)
      requires Shaped(State()) && ShapedFrame(x)
      modifies this
      ensures (State(), datagram) == Send(old(State()), x)
    {
      hide BuildDelta, FullDatagram, DeltaDatagram;
      var full := x.force || forceKeyframe || !x.deltasEnabled || !hasKeyframe || x.elapsed - lastKeyframeTime >= KEYFRAME_INTERVAL;
      var delta := [];
      if !full {
        delta := BuildDelta(keyframePayload, x.payload);
        full := |delta| >= |x.payload|;
      }
      if full {
        datagram := Some(FullDatagram(sequence, x));
        if x.deltasEnabled {
          keyframePayload, keyframeSequence, lastKeyframeTime, hasKeyframe := x.payload, sequence, x.elapsed, true;
        }
        forceKeyframe := false;
      } else {
        datagram := Some(DeltaDatagram(sequence, keyframeSequence, delta, x));
      }
      sequence := (sequence + 1) % 256;
      lastSentPayload, lastSentAngles, lastSentTime, hasLastSent := x.payload, x.angles, x.elapsed, true;
    }
  }

  // ---- The receiver ----

  datatype Held = Held(sequence: byte, payload: seq<byte>)

  /** The last full frame and what is on show. */
  datatype Receiver = Receiver(held: Option<Held>, shown: Option<seq<byte>>)

  predicate IsFull(d: seq<byte>) { |d| >= 3 + PAYLOAD_SIZE && (d[1] == PLAYER_AVATAR_HIGH || d[1] == PLAYER_AVATAR_HIGH_ADDITIONAL) }

  predicate IsDelta(d: seq<byte>) { |d| >= 5 && d[1] == DELTA_AVATAR && d[2] < CONTROL_BIT && d[2] % 4 == L.HIGH }

  predicate Holds(r: Receiver, sequence: byte) { r.held.Some? && r.held.value.sequence == sequence }

  /** A delta applied to what is held; one that does not decode changes nothing. */
  function Patched(r: Receiver, body: seq<byte>): Receiver
    requires r.held.Some?
  {
    var payload := ApplyDelta(r.held.value.payload, body);
    if payload.Some? then r.(shown := payload) else r
  }

  /** The server's side: a full frame is kept as the baseline, a delta must name it. */
  function Receive(r: Receiver, d: seq<byte>): Receiver {
    if IsFull(d) then
      var payload := d[3..3 + PAYLOAD_SIZE];
      Receiver(Some(Held(d[2], payload)), Some(payload))
    else if IsDelta(d) && Holds(r, d[4]) then Patched(r, d[5..])
    else r
  }

  /** Whether the server asks for a keyframe, and when it last did: at most once a second. */
  function Nack(r: Receiver, lastNack: int, d: seq<byte>, now: int): (bool, int) {
    if IsDelta(d) && !Holds(r, d[4]) && now - lastNack >= NACK_MILLIS then (true, now) else (false, lastNack)
  }

  lemma {:induction false} ReceivesFull(r: Receiver, sequence: byte, x: Frame)
    requires ShapedFrame(x)
    ensures Receive(r, FullDatagram(sequence, x)) == Receiver(Some(Held(sequence, x.payload)), Some(x.payload))
    ensures IsFull(FullDatagram(sequence, x))
  {
  }

  lemma {:induction false} DeltaIsNotEmpty(base: seq<byte>, current: seq<byte>)
    requires |base| == |current| == PAYLOAD_SIZE
    ensures |BuildDelta(base, current)| > 0
  {
  }

  /** A delta is applied to what is held if that has the sequence it names, and is ignored otherwise. */
  lemma {:induction false} ReceivesDelta(r: Receiver, sequence: byte, x: Frame, key: Held)
    requires ShapedFrame(x) && |key.payload| == PAYLOAD_SIZE
    ensures var delta := BuildDelta(key.payload, x.payload);
            var d := DeltaDatagram(sequence, key.sequence, delta, x);
            && !IsFull(d) && IsDelta(d) && d[4] == key.sequence
            && Receive(r, d) == if Holds(r, key.sequence) then Patched(r, delta + x.additional) else r
  {
    hide BuildDelta, ApplyDelta;
    DeltaIsNotEmpty(key.payload, x.payload);
    var delta := BuildDelta(key.payload, x.payload);
    var d := DeltaDatagram(sequence, key.sequence, delta, x);
    assert d[5..] == delta + x.additional;
  }

  /** The receiver after the sender has made these calls and every datagram arrived in order. */
  function Exchange(s: Sender, r: Receiver, frames: seq<Frame>): (Sender, Receiver)
    requires Shaped(s) && forall x <- frames :: ShapedFrame(x)
    decreases |frames|
  {
    if frames == [] then (s, r)
    else
      assert frames[0] in frames;
      var (t, d) := Write(s, frames[0]);
      Exchange(t, if d.Some? then Receive(r, d.value) else r, frames[1..])
  }

  /** The receiver shows what was last sent, now and after each of these calls. */
  predicate AlwaysExact(s: Sender, r: Receiver, frames: seq<Frame>)
    requires Shaped(s) && forall x <- frames :: ShapedFrame(x)
    decreases |frames|
  {
    && r.shown == s.lastSent
    && (frames != [] ==>
          assert frames[0] in frames;
          var (t, d) := Write(s, frames[0]);
          AlwaysExact(t, if d.Some? then Receive(r, d.value) else r, frames[1..]))
  }

  // ---- When it is exact ----

  predicate SendsDelta(s: Sender, x: Frame)
    requires Shaped(s) && ShapedFrame(x)
  {
    Sends(s, x) && !SendsFull(Prepared(s, x), x)
  }

  predicate ShapedHeld(full: Option<Held>) { full.Some? ==> |full.value.payload| == PAYLOAD_SIZE }

  /** The last full frame that went out, recorded as the keyframe or not. */
  function LastFull(s: Sender, full: Option<Held>, x: Frame): (r: Option<Held>)
    requires Shaped(s) && ShapedFrame(x)
    ensures ShapedHeld(full) ==> ShapedHeld(r)
  {
    if Sends(s, x) && SendsFull(Prepared(s, x), x) then Some(Held(s.sequence, x.payload)) else full
  }

  /**
   * What the call sends can be understood by a receiver that has the last full frame. A delta can
   * if that frame carries the keyframe's sequence and agrees with the keyframe in every channel
   * the delta does not send raw; if it carries another sequence, the frame must be the last one again.
   */
  predicate Faithful(s: Sender, full: Option<Held>, x: Frame)
    requires Shaped(s) && ShapedFrame(x) && ShapedHeld(full)
  {
    SendsDelta(s, x) ==>
      if full.Some? && full.value.sequence == s.keyframeSequence then Agrees(full.value.payload, s.keyframe.value, x.payload)
      else s.lastSent == Some(x.payload)
  }

  predicate AlwaysFaithful(s: Sender, full: Option<Held>, frames: seq<Frame>)
    requires Shaped(s) && ShapedHeld(full) && forall x <- frames :: ShapedFrame(x)
    decreases |frames|
  {
    frames != [] ==>
      assert frames[0] in frames;
      Faithful(s, full, frames[0]) && AlwaysFaithful(Write(s, frames[0]).0, LastFull(s, full, frames[0]), frames[1..])
  }

  /** One call keeps an exact receiver exact exactly if it is faithful, and the receiver holds the last full frame. */
  lemma {:induction false} WriteIsExactIffFaithful(s: Sender, r: Receiver, x: Frame)
    requires Shaped(s) && ShapedFrame(x) && ShapedHeld(r.held) && r.shown == s.lastSent
    ensures var (t, d) := Write(s, x);
            var q := if d.Some? then Receive(r, d.value) else r;
            q.held == LastFull(s, r.held, x) && (q.shown == t.lastSent <==> Faithful(s, r.held, x))
  {
    hide BuildDelta, ApplyDelta, TickDue, Suppressed, FullDatagram, DeltaDatagram, Receive, Agrees;
    ReceivesFull(r, s.sequence, x);
    if SendsDelta(s, x) {
      var key := Held(s.keyframeSequence, s.keyframe.value);
      ReceivesDelta(r, s.sequence, x, key);
      if r.held.Some? {
        RightOnlyOnAgreeingBase(r.held.value.payload, key.payload, x.payload, x.additional);
      }
    }
  }

  /**
   * Lossless and in order, the receiver shows after every call what was last sent, if and only if
   * no delta goes out that rests on another frame than the last full one sent.
   */
  lemma {:induction false} ExactIffFaithful(s: Sender, r: Receiver, frames: seq<Frame>)
    requires Shaped(s) && ShapedHeld(r.held) && (forall x <- frames :: ShapedFrame(x)) && r.shown == s.lastSent
    ensures AlwaysExact(s, r, frames) <==> AlwaysFaithful(s, r.held, frames)
    decreases |frames|
  {
    if frames != [] {
      hide Write, Receive, ShapedFrame, Shaped, ShapedHeld, LastFull, Faithful;
      assert frames[0] in frames;
      WriteIsExactIffFaithful(s, r, frames[0]);
      var (t, d) := Write(s, frames[0]);
      var q := if d.Some? then Receive(r, d.value) else r;
      if q.shown == t.lastSent {
        ExactIffFaithful(t, q, frames[1..]);
      }
    }
  }

  /** The last full frame is the keyframe. */
  predicate Recorded(s: Sender, full: Option<Held>) {
    s.keyframe.Some? && full == Some(Held(s.keyframeSequence, s.keyframe.value))
  }

  lemma {:induction false} AgreesWithItself(base: seq<byte>, current: seq<byte>)
    requires |base| == |current| == PAYLOAD_SIZE
    ensures Agrees(base, base, current)
  {
    hide BuildDelta, ApplyDelta, Agrees;
    RightOnlyOnAgreeingBase(base, base, current, []);
    ApplyInvertsBuild(base, current, []);
  }

  /**
   * So a new frame is lost exactly when it goes out as a delta while the last full frame went out
   * unrecorded, unless that frame happens to carry the keyframe's sequence.
   */
  lemma {:induction false} FaithfulIffRecorded(s: Sender, full: Option<Held>, x: Frame)
    requires Shaped(s) && ShapedFrame(x) && ShapedHeld(full) && s.lastSent != Some(x.payload)
    requires full.Some? && s.keyframe.Some? && full.value.sequence == s.keyframeSequence ==> Recorded(s, full)
    ensures Faithful(s, full, x) <==> (SendsDelta(s, x) ==> Recorded(s, full))
  {
    hide BuildDelta, Agrees, Sends;
    if SendsDelta(s, x) && Recorded(s, full) {
      AgreesWithItself(s.keyframe.value, x.payload);
    }
  }

  // ---- Asking for a keyframe ----

  /** A delta, if one is sent under this permission, rests on the last full frame. */
  predicate InStep(s: Sender, full: Option<Held>, deltasEnabled: bool) {
    Shaped(s) && ShapedHeld(full) && (deltasEnabled && s.keyframe.Some? && !s.forceKeyframe ==> Recorded(s, full))
  }

  /** A keyframe is asked for whenever deltas come to be allowed again. */
  predicate Announced(deltasEnabled: bool, frames: seq<Frame>)
    decreases |frames|
  {
    frames != [] ==> (frames[0].deltasEnabled && !deltasEnabled ==> frames[0].force) && Announced(frames[0].deltasEnabled, frames[1..])
  }

  lemma {:induction false} WriteKeepsStep(s: Sender, full: Option<Held>, deltasEnabled: bool, x: Frame)
    requires InStep(s, full, deltasEnabled) && ShapedFrame(x) && (x.deltasEnabled && !deltasEnabled ==> x.force)
    ensures Faithful(s, full, x) && InStep(Write(s, x).0, LastFull(s, full, x), x.deltasEnabled)
  {
    hide BuildDelta, TickDue, Suppressed, FullDatagram, DeltaDatagram, Agrees;
    if SendsDelta(s, x) {
      AgreesWithItself(s.keyframe.value, x.payload);
    }
  }

  lemma {:induction false} AnnouncedIsFaithful(s: Sender, full: Option<Held>, deltasEnabled: bool, frames: seq<Frame>)
    requires InStep(s, full, deltasEnabled) && (forall x <- frames :: ShapedFrame(x)) && Announced(deltasEnabled, frames)
    ensures AlwaysFaithful(s, full, frames)
    decreases |frames|
  {
    if frames != [] {
      hide Write, ShapedFrame, LastFull, Faithful, Recorded;
      assert frames[0] in frames;
      WriteKeepsStep(s, full, deltasEnabled, frames[0]);
      AnnouncedIsFaithful(Write(s, frames[0]).0, LastFull(s, full, frames[0]), frames[0].deltasEnabled, frames[1..]);
    }
  }

  /** It is enough to ask for a keyframe whenever deltas come to be allowed again. */
  lemma {:induction false} ReceiverShowsSender(s: Sender, r: Receiver, deltasEnabled: bool, frames: seq<Frame>)
    requires InStep(s, r.held, deltasEnabled) && r.shown == s.lastSent
    requires (forall x <- frames :: ShapedFrame(x)) && Announced(deltasEnabled, frames)
    ensures AlwaysExact(s, r, frames)
  {
    hide Write, ShapedFrame, Shaped, Announced, AlwaysExact, AlwaysFaithful;
    AnnouncedIsFaithful(s, r.held, deltasEnabled, frames);
    ExactIffFaithful(s, r, frames);
  }

  predicate Constant(deltasEnabled: bool, frames: seq<Frame>) { forall x <- frames :: x.deltasEnabled == deltasEnabled }

  lemma {:induction false} ConstantIsAnnounced(deltasEnabled: bool, frames: seq<Frame>)
    requires Constant(deltasEnabled, frames)
    ensures Announced(deltasEnabled, frames)
    decreases |frames|
  {
    if frames != [] {
      assert frames[0] in frames;
      ConstantIsAnnounced(deltasEnabled, frames[1..]);
    }
  }

  /** From the start, with constant metadata. */
  lemma {:induction false} ConstantMetadataIsExact(deltasEnabled: bool, frames: seq<Frame>)
    requires (forall x <- frames :: ShapedFrame(x)) && Constant(deltasEnabled, frames)
    ensures AlwaysExact(FIRST, Receiver(None, None), frames)
  {
    ConstantIsAnnounced(deltasEnabled, frames);
    ReceiverShowsSender(FIRST, Receiver(None, None), deltasEnabled, frames);
  }

  /**
   * A delta against a keyframe the receiver no longer holds is not applied: this is what happens
   * when deltas were forbidden for a while, full frames were sent unrecorded, and deltas are then
   * allowed again without asking for a keyframe.
   */
  lemma {:induction false} UnannouncedDeltaIsLost(s: Sender, r: Receiver, x: Frame)
    requires Shaped(s) && ShapedFrame(x) && SendsDelta(s, x)
    requires r.held.None? || r.held.value.sequence != s.keyframeSequence
    ensures Write(s, x).1.Some? && Receive(r, Write(s, x).1.value) == r
  {
    hide BuildDelta, TickDue, Suppressed, Receive;
    ReceivesDelta(r, s.sequence, x, Held(s.keyframeSequence, s.keyframe.value));
  }

  lemma {:induction false} SameBuildsMask(p: seq<byte>)
    requires |p| == PAYLOAD_SIZE
    ensures |BuildDelta(p, p)| == 5
  {
    L.LayoutIsComplete(L.HIGH);
    D.SameHasNoBody(L.LayoutOf(L.HIGH), 8 * PAYLOAD_SIZE, OfBytes(p));
    hide D.Mask, L.LayoutOf, OfBytes;
  }

  function Pose(first: byte): (r: seq<byte>)
    ensures |r| == PAYLOAD_SIZE && r[0] == first
  {
    seq(PAYLOAD_SIZE, _ => first)
  }

  function Still(elapsed: real, first: byte, deltasEnabled: bool): Frame {
    Frame(0.1, elapsed, 0.1, Pose(first), [elapsed], 0.0, 0.0, deltasEnabled, false, [])
  }

  /** Three calls that toggle the permission without asking for a keyframe leave the receiver behind. */
  lemma {:induction false} TogglingBreaksExactness()
    ensures var frames := [Still(0.0, 0, true), Still(0.1, 1, false), Still(0.2, 0, true)];
            var (t, q) := Exchange(FIRST, Receiver(None, None), frames);
            t.lastSent == Some(Pose(0)) && q.shown == Some(Pose(1)) && Pose(0) != Pose(1)
  {
    hide BuildDelta, ApplyDelta, FullDatagram, Receive;
    var a, b, c := Still(0.0, 0, true), Still(0.1, 1, false), Still(0.2, 0, true);
    assert Pose(0)[0] != Pose(1)[0];
    assert [a, b, c][1..] == [b, c] && [b, c][1..] == [c] && [c][1..] == [];
    var r0 := Receiver(None, None);
    var (s1, d1) := Write(FIRST, a);
    assert d1 == Some(FullDatagram(0, a));
    ReceivesFull(r0, 0, a);
    var r1 := Receive(r0, d1.value);
    var (s2, d2) := Write(s1, b);
    assert d2 == Some(FullDatagram(1, b));
    ReceivesFull(r1, 1, b);
    var r2 := Receive(r1, d2.value);
    SameBuildsMask(Pose(0));
    UnannouncedDeltaIsLost(s2, r2, c);
    var (s3, d3) := Write(s2, c);
    assert Exchange(s3, r2, []) == (s3, r2);
    assert Exchange(s2, r2, [c]) == (s3, r2);
    assert Exchange(s1, r1, [b, c]) == (s3, r2);
  }

  // ---- The keyframe's sequence used again ----

  /**
   * When the last full frame went out unrecorded under the sequence the keyframe has, 256 frames
   * later, a delta is applied to the wrong frame. If the new frame is the keyframe again, the
   * receiver goes on showing that other frame.
   */
  lemma {:induction false} AliasedDeltaMisleads(s: Sender, r: Receiver, x: Frame)
    requires Shaped(s) && ShapedFrame(x) && SendsDelta(s, x) && ShapedHeld(r.held)
    requires r.held.Some? && r.held.value.sequence == s.keyframeSequence
    ensures Write(s, x).1.Some?
    ensures var q := Receive(r, Write(s, x).1.value);
            && q.held == r.held && q.shown.Some?
            && (q.shown == Some(x.payload) <==> Agrees(r.held.value.payload, s.keyframe.value, x.payload))
            && (x.payload == s.keyframe.value ==> q.shown == Some(r.held.value.payload))
  {
    hide BuildDelta, ApplyDelta, TickDue, Suppressed, FullDatagram, DeltaDatagram, Receive, Agrees;
    var key, held := Held(s.keyframeSequence, s.keyframe.value), r.held.value.payload;
    ReceivesDelta(r, s.sequence, x, key);
    RightOnlyOnAgreeingBase(held, key.payload, x.payload, x.additional);
    EmptyDeltaKeeps(held, key.payload, x.additional);
  }

  lemma {:induction false} ExchangeLast(s: Sender, r: Receiver, frames: seq<Frame>, x: Frame)
    requires Shaped(s) && (forall y <- frames :: ShapedFrame(y)) && ShapedFrame(x)
    ensures forall y <- frames + [x] :: ShapedFrame(y)
    ensures var (t, q) := Exchange(s, r, frames);
            Shaped(t) && Exchange(s, r, frames + [x])
            == (Write(t, x).0, if Write(t, x).1.Some? then Receive(q, Write(t, x).1.value) else q)
    decreases |frames|
  {
    hide Write, Receive, ShapedFrame, Shaped;
    var all := frames + [x];
    if frames == [] {
      assert all == [x] && all[1..] == [];
    } else {
      assert frames[0] in frames && all[1..] == frames[1..] + [x];
      var (t, d) := Write(s, frames[0]);
      ExchangeLast(t, if d.Some? then Receive(r, d.value) else r, frames[1..], x);
    }
  }

  function Millis(k: nat): real { k as real * 0.001 }

  /** One frame a millisecond: the k-th. */
  function Quick(k: nat, pose: byte, deltasEnabled: bool): Frame {
    Frame(0.001, Millis(k), 0.001, Pose(pose), [Millis(k)], 0.0, 0.0, deltasEnabled, false, [])
  }

  /** Of k + 1 frames, all but the first go out in full and unrecorded. */
  function QuickRun(k: nat): (r: seq<Frame>)
    ensures forall x <- r :: ShapedFrame(x)
  {
    if k == 0 then [Quick(0, 0, true)] else QuickRun(k - 1) + [Quick(k, 1 + k % 2, false)]
  }

  function QuickSender(k: nat): Sender {
    Sender(0.0, (k + 1) % 256, Some(Pose(if k == 0 then 0 else 1 + k % 2)), [Millis(k)], Millis(k), Some(Pose(0)), 0, 0.0, false)
  }

  function QuickReceiver(k: nat): Receiver {
    var pose := Pose(if k == 0 then 0 else 1 + k % 2);
    Receiver(Some(Held(k % 256, pose)), Some(pose))
  }

  lemma {:induction false} NextMilli(k: nat)
    ensures Millis(k + 1) == Millis(k) + 0.001 && (k < 499 ==> Millis(k + 1) < 0.5)
  {
  }

  /** The pose of the next frame is another one and it moved. */
  lemma {:induction false} QuickSends(k: nat, pose: byte, deltasEnabled: bool)
    requires pose != if k == 0 then 0 else 1 + k % 2
    ensures Sends(QuickSender(k), Quick(k + 1, pose, deltasEnabled))
    ensures Prepared(QuickSender(k), Quick(k + 1, pose, deltasEnabled)) == QuickSender(k)
  {
    var x, s := Quick(k + 1, pose, deltasEnabled), QuickSender(k);
    NextMilli(k);
    hide Millis;
    assert Pose(pose)[0] != s.lastSent.value[0];
    assert TickDue(0.0, 0.001, 0.001) == (0.0, true);
    hide TickDue;
    assert !WithinDeadband(Prepared(s, x), x);
  }

  lemma {:induction false} NextByte(k: nat)
    ensures (k % 256 + 1) % 256 == (k + 1) % 256
  {
  }

  lemma {:induction false} QuickStep(k: nat)
    requires k > 0
    ensures var x := Quick(k, 1 + k % 2, false);
            Write(QuickSender(k - 1), x) == (QuickSender(k), Some(FullDatagram(k % 256, x)))
  {
    QuickSends(k - 1, 1 + k % 2, false);
    NextByte(k);
    hide BuildDelta, FullDatagram, DeltaDatagram, Millis, Sends, Prepared, Pose, TickDue, Suppressed;
  }

  lemma {:induction false} QuickRunIs(k: nat)
    ensures Exchange(FIRST, Receiver(None, None), QuickRun(k)) == (QuickSender(k), QuickReceiver(k))
  {
    if k == 0 {
      QuickStart();
    } else {
      QuickRunIs(k - 1);
      QuickStep(k);
      hide Write, Receive, FullDatagram, QuickSender, Exchange;
      var x := Quick(k, 1 + k % 2, false);
      ExchangeLast(FIRST, Receiver(None, None), QuickRun(k - 1), x);
      ReceivesFull(QuickReceiver(k - 1), k % 256, x);
    }
  }

  lemma {:induction false} QuickStart()
    ensures Exchange(FIRST, Receiver(None, None), QuickRun(0)) == (QuickSender(0), QuickReceiver(0))
  {
    var x := Quick(0, 0, true);
    ReceivesFull(Receiver(None, None), 0, x);
    hide BuildDelta, FullDatagram, Receive, DeltaDatagram;
    assert Write(FIRST, x) == (QuickSender(0), Some(FullDatagram(0, x)));
    assert [x][1..] == [];
    assert Exchange(QuickSender(0), QuickReceiver(0), []) == (QuickSender(0), QuickReceiver(0));
  }

  lemma {:induction false} QuickDelta(k: nat)
    requires 0 < k < 499
    ensures var x, s := Quick(k + 1, 0, true), QuickSender(k);
            Shaped(s) && SendsDelta(s, x) && Write(s, x).0.lastSent == Some(Pose(0))
  {
    SameBuildsMask(Pose(0));
    NextMilli(k);
    QuickSends(k, 0, true);
    hide BuildDelta, DeltaDatagram, FullDatagram, Millis, Sends, Prepared, Pose;
  }

  /** After 256 unrecorded frames the receiver holds another frame under the keyframe's sequence. */
  lemma {:induction false} QuickAlias(k: nat)
    requires k == 256
    ensures QuickReceiver(k) == Receiver(Some(Held(0, Pose(1))), Some(Pose(1))) && ShapedHeld(QuickReceiver(k).held)
    ensures QuickSender(k).keyframe == Some(Pose(0)) && QuickSender(k).keyframeSequence == 0
    ensures Quick(k + 1, 0, true).payload == Pose(0) && ShapedFrame(Quick(k + 1, 0, true)) && Shaped(FIRST)
    ensures Pose(0) != Pose(1)
  {
    hide Millis;
    assert Pose(0)[0] != Pose(1)[0];
  }

  /** A quarter of a second at a thousand frames a second gets there, and the receiver shows a wrong pose. */
  lemma {:induction false} AliasIsReached(k: nat)
    requires k == 256
    ensures var frames := QuickRun(k) + [Quick(k + 1, 0, true)];
            (forall x <- frames :: ShapedFrame(x))
            && var (t, q) := Exchange(FIRST, Receiver(None, None), frames);
               t.lastSent == Some(Pose(0)) && q.shown == Some(Pose(1)) && Pose(0) != Pose(1)
  {
    hide *;
    var x, s, r := Quick(k + 1, 0, true), QuickSender(k), QuickReceiver(k);
    QuickAlias(k);
    QuickRunIs(k);
    QuickDelta(k);
    AliasedDeltaMisleads(s, r, x);
    ExchangeLast(FIRST, Receiver(None, None), QuickRun(k), x);
  }

  // ---- Keyframe requests ----

  /** The first datagram the calls produce, if any. */
  function FirstDatagram(s: Sender, frames: seq<Frame>): Option<seq<byte>>
    requires Shaped(s) && forall x <- frames :: ShapedFrame(x)
    decreases |frames|
  {
    if frames == [] then None
    else
      assert frames[0] in frames;
      var (t, d) := Write(s, frames[0]);
      if d.Some? then d else FirstDatagram(t, frames[1..])
  }

  /** How many calls it takes until one of them sends something; all of them, if none does. */
  function Until(s: Sender, frames: seq<Frame>): (n: nat)
    requires Shaped(s) && forall x <- frames :: ShapedFrame(x)
    ensures n <= |frames| && (frames != [] ==> n > 0)
    decreases |frames|
  {
    if frames == [] then 0
    else
      assert frames[0] in frames;
      if Write(s, frames[0]).1.Some? then 1 else 1 + Until(Write(s, frames[0]).0, frames[1..])
  }

  /**
   * The server notices a delta it cannot use and asks for a keyframe, unless it did within the last
   * second; a delta that names the sequence of another frame it holds goes unnoticed.
   */
  lemma {:induction false} LostDeltaIsNoticed(s: Sender, r: Receiver, x: Frame, lastNack: int, now: int)
    requires Shaped(s) && ShapedFrame(x) && SendsDelta(s, x)
    ensures Write(s, x).1.Some?
    ensures Nack(r, lastNack, Write(s, x).1.value, now).0 <==> !Holds(r, s.keyframeSequence) && now - lastNack >= NACK_MILLIS
  {
    hide BuildDelta, TickDue, Suppressed, Receive, DeltaDatagram, FullDatagram;
    ReceivesDelta(r, s.sequence, x, Held(s.keyframeSequence, s.keyframe.value));
  }

  /** The first call that sends something after a request, whatever the receiver has, makes it exact again. */
  lemma {:induction false} FullRestores(s: Sender, r: Receiver, x: Frame)
    requires Shaped(s) && ShapedFrame(x) && (s.forceKeyframe || x.force) && Write(s, x).1.Some?
    ensures var (t, q) := (Write(s, x).0, Receive(r, Write(s, x).1.value));
            q.shown == t.lastSent == Some(x.payload) && InStep(t, q.held, x.deltasEnabled)
  {
    hide BuildDelta, TickDue, Suppressed, FullDatagram, DeltaDatagram, Receive;
    ReceivesFull(r, s.sequence, x);
  }

  /**
   * From any receiver at all, the first datagram after a request for a keyframe makes it show what
   * was sent, and it stays exact as long as every later return of deltas is announced.
   */
  lemma {:induction false} RequestRestores(s: Sender, r: Receiver, frames: seq<Frame>)
    requires Shaped(s) && (forall x <- frames :: ShapedFrame(x))
    requires s.forceKeyframe || (frames != [] && frames[0].force)
    requires FirstDatagram(s, frames).Some?
    ensures var n := Until(s, frames);
            var (t, q) := Exchange(s, r, frames[..n]);
            && n > 0 && Shaped(t) && q.shown == t.lastSent == Some(frames[n - 1].payload)
            && (Announced(frames[n - 1].deltasEnabled, frames[n..]) ==> AlwaysExact(t, q, frames[n..]))
    decreases |frames|
  {
    hide BuildDelta, TickDue, Suppressed, FullDatagram, DeltaDatagram, Receive, InStep, AlwaysExact, Announced;
    var x, n := frames[0], Until(s, frames);
    assert x in frames;
    var (t, d) := Write(s, x);
    assert frames[..n][1..] == frames[1..][..n - 1] && frames[..n][0] == x;
    if d.Some? {
      FullRestores(s, r, x);
      assert n == 1 && frames[..1][1..] == [];
      var q := Receive(r, d.value);
      assert Exchange(t, q, []) == (t, q);
      if Announced(x.deltasEnabled, frames[1..]) {
        ReceiverShowsSender(t, q, x.deltasEnabled, frames[1..]);
      }
    } else {
      hide Write;
      KeepsRequest(s, x);
      RequestRestores(t, r, frames[1..]);
      assert frames[1..][n - 1..] == frames[n..];
    }
  }

  lemma {:induction false} KeepsRequest(s: Sender, x: Frame)
    requires Shaped(s) && ShapedFrame(x) && (s.forceKeyframe || x.force) && Write(s, x).1.None?
    ensures Write(s, x).0.forceKeyframe
  {
  }

  /** A request for a keyframe outlives any number of suppressed ticks: the next datagram is full. */
  lemma {:induction false} RequestSurvives(s: Sender, frames: seq<Frame>)
    requires Shaped(s) && (forall x <- frames :: ShapedFrame(x))
    requires s.forceKeyframe || (frames != [] && frames[0].force)
    ensures FirstDatagram(s, frames).Some? ==> IsFull(FirstDatagram(s, frames).value)
    decreases |frames|
  {
    hide BuildDelta, TickDue, Suppressed, IsFull, FullDatagram, DeltaDatagram, Shaped, ShapedFrame;
    if frames != [] {
      assert frames[0] in frames;
      var (t, d) := Write(s, frames[0]);
      if d.Some? {
        ReceivesFull(Receiver(None, None), s.sequence, frames[0]);
      } else {
        RequestSurvives(t, frames[1..]);
      }
    }
  }
}
