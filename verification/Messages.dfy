/**
 * Messages cut into fragments and put back together from packets in the order they were sent, as
 * an ordered channel delivers them. What a reassembler behind such a channel gets is a prefix of
 * the messages sent, and exactly the messages before the first that is too long or was interrupted
 * for too long. The Rust client has no such channel before it; see ClientMessages.dfy.
 */
module Messages {
  import opened Packets
  import opened Fragments
  import C = ChannelSystem
  import T = ChannelTheorems

  datatype Message = Message(payload: seq<byte>, id: nat)

  datatype Arrival = Arrival(body: Body, at: int)

  /** The sender takes the message. */
  predicate Postable(m: Message) { m.id < 65536 && (FitsWhole(m.payload) || Parts(|m.payload|) <= 65535) }

  /** A receiver with the client's limits takes it too. */
  predicate Sendable(m: Message) { m.id < 65536 && (FitsWhole(m.payload) || Parts(|m.payload|) <= MAX_PARTS) }

  function Pieces(m: Message): (r: seq<Body>)
    requires Postable(m)
    ensures |r| == if FitsWhole(m.payload) then 1 else Parts(|m.payload|)
    ensures |r| > 0
  {
    assert !FitsWhole(m.payload) ==> Parts(|m.payload|) >= 2;
    Split(m.payload, m.id).value
  }

  function SendAll(messages: seq<Message>): seq<Body>
    requires forall m <- messages :: Postable(m)
  {
    if messages == [] then [] else Pieces(messages[0]) + SendAll(messages[1..])
  }

  function Payloads(messages: seq<Message>): (r: seq<seq<byte>>)
    ensures |r| == |messages| && forall k :: 0 <= k < |r| ==> r[k] == messages[k].payload
  {
    seq(|messages|, k requires 0 <= k < |messages| => messages[k].payload)
  }

  /**
   * The messages a receiver makes of packets in the order it gets them. A strict receiver gives up
   * its connection at the first fragment that is refused, as the client does; the other goes on.
   */
  ghost function Rejoin(s: Reassembler, channel: byte, arrivals: seq<Arrival>, strict: bool): seq<seq<byte>>
    requires Shaped(s)
    decreases |arrivals|
  {
    if arrivals == [] then []
    else if !arrivals[0].body.fragmented then [arrivals[0].body.bytes] + Rejoin(s, channel, arrivals[1..], strict)
    else
      var (t, result) := PushAt(s, channel, arrivals[0].body.bytes, arrivals[0].at);
      if result.Complete? then [result.bytes] + Rejoin(t, channel, arrivals[1..], strict)
      else if result.Invalid? && strict then []
      else Rejoin(t, channel, arrivals[1..], strict)
  }

  function BodiesOf(arrivals: seq<Arrival>): (r: seq<Body>)
    ensures |r| == |arrivals| && forall k :: 0 <= k < |r| ==> r[k] == arrivals[k].body
  {
    seq(|arrivals|, k requires 0 <= k < |arrivals| => arrivals[k].body)
  }

  /** The k-th of these arrivals follows the one before it in time. */
  predicate InTime(arrivals: seq<Arrival>, k: nat)
    requires 0 < k < |arrivals|
  {
    arrivals[k].at - arrivals[k - 1].at <= EXPIRY_MILLIS
  }

  /** No two successive ones of the first n arrivals are further apart than an assembly lives. */
  predicate Steady(arrivals: seq<Arrival>, n: nat) {
    forall k :: 0 < k < |arrivals| && k < n ==> InTime(arrivals, k)
  }

  /** The message at the head of the arrivals is not too long, and nothing interrupts it for too long. */
  predicate Intact(m: Message, arrivals: seq<Arrival>) {
    FitsWhole(m.payload) || (Parts(|m.payload|) <= MAX_PARTS && Steady(arrivals, Parts(|m.payload|)))
  }

  /** All messages, as far as they have arrived. */
  predicate AllIntact(messages: seq<Message>, arrivals: seq<Arrival>)
    requires forall m <- messages :: Postable(m)
    decreases |messages|
  {
    messages != [] && arrivals != [] ==>
      var n := |Pieces(messages[0])|;
      Intact(messages[0], arrivals) && (n <= |arrivals| ==> AllIntact(messages[1..], arrivals[n..]))
  }

  /** How many messages have arrived before the first that is not intact or not complete. */
  function Whole(messages: seq<Message>, arrivals: seq<Arrival>): (r: nat)
    requires forall m <- messages :: Postable(m)
    ensures r <= |messages|
    decreases |messages|
  {
    if messages == [] || |arrivals| < |Pieces(messages[0])| || !Intact(messages[0], arrivals) then 0
    else 1 + Whole(messages[1..], arrivals[|Pieces(messages[0])|..])
  }

  /** The reassembler has seen exactly the first `part` fragments of m. */
  ghost predicate Halfway(s: Reassembler, channel: byte, m: Message, part: nat, last: int) {
    if part == 0 then s == EMPTY
    else
      var key := (channel, m.id);
      && s.entries.Keys == {key}
      && Partial(s.entries[key], m.payload)
      && Count(s.entries[key].parts) == part
      && (forall k :: 0 <= k < Parts(|m.payload|) ==> Arrived(s, key, k) == (k < part))
      && s.entries[key].updatedAt == last
      && s.bytes == s.entries[key].bytes
  }

  lemma {:induction false} BytesBound(parts: seq<Option<seq<byte>>>)
    requires forall p <- parts :: p.Some? ==> |p.value| <= FRAGMENT_SIZE
    ensures Bytes(parts) <= Count(parts) * FRAGMENT_SIZE
  {
    if parts != [] {
      assert parts[0] in parts;
      BytesBound(parts[1..]);
    }
  }

  /** The next fragment in order is kept, and the last one completes the message. */
  lemma {:induction false} NextFragment(s: Reassembler, channel: byte, m: Message, part: nat, last: int, now: int)
    requires Sendable(m) && !FitsWhole(m.payload) && part < Parts(|m.payload|)
    requires Halfway(s, channel, m, part, last) && (part > 0 ==> now - last <= EXPIRY_MILLIS)
    ensures Shaped(s)
    ensures var (t, result) := PushAt(s, channel, Fragment(m.payload, m.id, part), now);
            if part + 1 < Parts(|m.payload|) then result == Pending && Halfway(t, channel, m, part + 1, now)
            else result == Complete(m.payload) && t == EMPTY
  {
    HalfwayHasRoom(s, channel, m, part, last);
    NothingExpired(s, channel, m, part, last, now);
    hide Halfway, Push, Placed;
    PushPiece(s, channel, m.id, m.payload, part, now);
    var (t, result) := Push(s, channel, Fragment(m.payload, m.id, part), now);
    PlacedIsHalfway(s, t, result, channel, m, part, last, now);
  }

  lemma {:induction false} NothingExpired(s: Reassembler, channel: byte, m: Message, part: nat, last: int, now: int)
    requires Halfway(s, channel, m, part, last) && (part > 0 ==> now - last <= EXPIRY_MILLIS)
    requires part < Parts(|m.payload|)
    ensures Expired(s, now) == {} && !Arrived(s, (channel, m.id), part)
    ensures var key := (channel, m.id); key in s.entries ==> Partial(s.entries[key], m.payload) && s.entries[key].bytes <= s.bytes
  {
  }

  lemma {:induction false} PlacedIsHalfway(s: Reassembler, t: Reassembler, result: Result, channel: byte, m: Message, part: nat, last: int, now: int)
    requires part < Parts(|m.payload|) && Halfway(s, channel, m, part, last)
    requires Placed(s, t, result, (channel, m.id), m.payload, part, now)
    ensures if part + 1 < Parts(|m.payload|) then result == Pending && Halfway(t, channel, m, part + 1, now)
            else result == Complete(m.payload) && t == EMPTY
  {
    hide Partial;
    OnlyAssembly(s, t, (channel, m.id));
  }

  lemma {:induction false} OnlyAssembly(s: Reassembler, t: Reassembler, key: Key)
    requires s.entries.Keys <= {key} && t.entries - {key} == s.entries - {key}
    ensures t.entries.Keys == if key in t.entries then {key} else {}
    ensures key !in t.entries ==> t.entries == map[]
  {
    assert forall k <- t.entries :: k != key ==> k in t.entries - {key};
    assert forall k <- t.entries :: k == key;
  }

  /** One assembly at a time never reaches the limits. */
  lemma {:induction false} HalfwayHasRoom(s: Reassembler, channel: byte, m: Message, part: nat, last: int)
    requires Sendable(m) && !FitsWhole(m.payload) && part < Parts(|m.payload|) && Halfway(s, channel, m, part, last)
    ensures Shaped(s) && Room(s, (channel, m.id), Chunk(m.payload, part))
  {
    if part > 0 {
      var parts := s.entries[(channel, m.id)].parts;
      forall p <- parts
        ensures p.Some? ==> |p.value| <= FRAGMENT_SIZE
      {
        var k :| 0 <= k < |parts| && parts[k] == p;
      }
      BytesBound(parts);
    }
  }

  /** The arrivals begin with the fragments of m from `part` on, as far as they go. */
  ghost predicate Follows(arrivals: seq<Arrival>, m: Message, part: nat)
    requires m.id < 65536 && Parts(|m.payload|) < 65536
  {
    forall k :: 0 <= k < |arrivals| && part + k < Parts(|m.payload|) ==>
      arrivals[k].body == Body(true, Fragment(m.payload, m.id, part + k))
  }

  /** The first of the arrivals, if it continues a message, comes soon enough after the one before. */
  predicate Resumes(arrivals: seq<Arrival>, part: nat, last: int) {
    part > 0 && arrivals != [] ==> arrivals[0].at - last <= EXPIRY_MILLIS
  }

  lemma {:induction false} FollowsTail(arrivals: seq<Arrival>, m: Message, part: nat)
    requires m.id < 65536 && Parts(|m.payload|) < 65536 && arrivals != [] && Follows(arrivals, m, part)
    ensures Follows(arrivals[1..], m, part + 1)
  {
  }

  /** A gap later on is a gap of the rest, or right after the first. */
  lemma {:induction false} SteadyTail(arrivals: seq<Arrival>, n: nat)
    requires arrivals != [] && n > 1
    ensures Steady(arrivals, n) <==> Steady(arrivals[1..], n - 1) && Resumes(arrivals[1..], 1, arrivals[0].at)
  {
    var tail := arrivals[1..];
    assert forall k :: 0 < k < |tail| ==> InTime(tail, k) == InTime(arrivals, k + 1);
    assert |arrivals| > 1 ==> InTime(arrivals, 1) == Resumes(tail, 1, arrivals[0].at);
    if Steady(tail, n - 1) && Resumes(tail, 1, arrivals[0].at) {
      forall k | 0 < k < |arrivals| && k < n
        ensures InTime(arrivals, k)
      {
        assert k > 1 ==> InTime(tail, k - 1);
      }
    }
  }

  lemma {:induction false} RejoinStep(s: Reassembler, channel: byte, m: Message, part: nat, last: int, arrivals: seq<Arrival>, strict: bool)
    returns (t: Reassembler)
    requires Sendable(m) && !FitsWhole(m.payload) && part < Parts(|m.payload|) && Shaped(s)
    requires Halfway(s, channel, m, part, last) && arrivals != [] && Follows(arrivals, m, part)
    requires Resumes(arrivals, part, last)
    ensures Shaped(t) && if part + 1 < Parts(|m.payload|) then Halfway(t, channel, m, part + 1, arrivals[0].at) else t == EMPTY
    ensures Rejoin(s, channel, arrivals, strict)
            == if part + 1 < Parts(|m.payload|) then Rejoin(t, channel, arrivals[1..], strict)
               else [m.payload] + Rejoin(t, channel, arrivals[1..], strict)
  {
    NextFragment(s, channel, m, part, last, arrivals[0].at);
    hide PushAt, Halfway, Fragment;
    t := PushAt(s, channel, Fragment(m.payload, m.id, part), arrivals[0].at).0;
    assert arrivals[0].body == Body(true, Fragment(m.payload, m.id, part));
  }

  /** What comes out when `rest` packets of the current message are still to come. */
  ghost function Outcome(channel: byte, payload: seq<byte>, rest: nat, arrivals: seq<Arrival>, strict: bool): seq<seq<byte>> {
    if |arrivals| < rest then [] else [payload] + Rejoin(EMPTY, channel, arrivals[rest..], strict)
  }

  lemma {:induction false} OutcomeTail(channel: byte, payload: seq<byte>, rest: nat, arrivals: seq<Arrival>, strict: bool)
    requires arrivals != [] && rest > 0
    ensures Outcome(channel, payload, rest, arrivals, strict) == Outcome(channel, payload, rest - 1, arrivals[1..], strict)
  {
  }

  lemma {:induction false} SendableLimits(m: Message)
    requires Sendable(m) && !FitsWhole(m.payload)
    ensures m.id < 65536 && Parts(|m.payload|) < 65536
  {
  }

  lemma {:induction false} OutcomeNow(channel: byte, payload: seq<byte>, arrivals: seq<Arrival>, strict: bool)
    ensures Outcome(channel, payload, 0, arrivals, strict) == [payload] + Rejoin(EMPTY, channel, arrivals, strict)
  {
  }

  lemma {:induction false} NothingYet(s: Reassembler, channel: byte, payload: seq<byte>, rest: nat, strict: bool)
    requires Shaped(s) && rest > 0
    ensures Rejoin(s, channel, [], strict) == Outcome(channel, payload, rest, [], strict) == []
  {
  }

  /** From the middle of a message on: it is completed if its remaining fragments arrive in time. */
  lemma {:induction false} RejoinRest(s: Reassembler, channel: byte, m: Message, part: nat, last: int, arrivals: seq<Arrival>, strict: bool)
    requires Sendable(m) && !FitsWhole(m.payload) && part < Parts(|m.payload|) && Shaped(s)
    requires Halfway(s, channel, m, part, last) && Follows(arrivals, m, part)
    requires Steady(arrivals, Parts(|m.payload|) - part) && Resumes(arrivals, part, last)
    ensures Rejoin(s, channel, arrivals, strict) == Outcome(channel, m.payload, Parts(|m.payload|) - part, arrivals, strict)
    decreases |arrivals|
  {
    hide *;
    SendableLimits(m);
    var rest := Parts(|m.payload|) - part;
    if arrivals == [] {
      NothingYet(s, channel, m.payload, rest, strict);
    } else {
      var t := RejoinStep(s, channel, m, part, last, arrivals, strict);
      FollowsTail(arrivals, m, part);
      OutcomeTail(channel, m.payload, rest, arrivals, strict);
      if part + 1 < Parts(|m.payload|) {
        SteadyTail(arrivals, rest);
        ResumesAlike(arrivals[1..], part + 1, arrivals[0].at);
        RejoinRest(t, channel, m, part + 1, arrivals[0].at, arrivals[1..], strict);
      } else {
        OutcomeNow(channel, m.payload, arrivals[1..], strict);
      }
    }
  }

  lemma {:induction false} ResumesAlike(arrivals: seq<Arrival>, part: nat, last: int)
    requires part > 0
    ensures Resumes(arrivals, part, last) == Resumes(arrivals, 1, last)
  {
  }

  // ---- Messages that are lost ----

  /** Of the message with this key and total, the assembly has at most c pieces. */
  predicate Counted(s: Reassembler, key: Key, total: nat, c: nat) {
    key in s.entries ==> s.entries[key].total == total && s.entries[key].received <= c
  }

  lemma {:induction false} SweepCounted(s: Reassembler, keys: set<Key>, key: Key, total: nat, c: nat)
    requires Shaped(s) && Counted(s, key, total, c)
    ensures Counted(Sweep(s, keys), key, total, c)
    decreases keys
  {
    if keys != {} {
      var k :| k in keys && Sweep(s, keys) == Sweep(Remove(s, k), keys - {k});
      SweepCounted(Remove(s, k), keys - {k}, key, total, c);
    }
  }

  /** A fragment adds at most one piece, and completes nothing while more than one is missing. */
  lemma {:induction false} PushCounted(s: Reassembler, channel: byte, m: Message, part: nat, now: int, c: nat)
    requires Shaped(s) && m.id < 65536 && part < Parts(|m.payload|) < 65536 && c + 1 < Parts(|m.payload|)
    requires Counted(s, (channel, m.id), Parts(|m.payload|), c)
    ensures var (t, result) := PushAt(s, channel, Fragment(m.payload, m.id, part), now);
            !result.Complete? && Counted(t, (channel, m.id), Parts(|m.payload|), c + 1)
  {
    FragmentFields(m.payload, m.id, part);
    SweepCounted(s, Expired(s, now), (channel, m.id), Parts(|m.payload|), c);
    hide Fragment, Chunk, Parts, Conflicts, Sweep;
  }

  /** Too few pieces for a message give nothing. */
  lemma {:induction false} NoneComplete(s: Reassembler, channel: byte, m: Message, part: nat, arrivals: seq<Arrival>, strict: bool, c: nat)
    requires Shaped(s) && m.id < 65536 && Parts(|m.payload|) < 65536 && Follows(arrivals, m, part)
    requires part + |arrivals| <= Parts(|m.payload|) && c + |arrivals| < Parts(|m.payload|)
    requires Counted(s, (channel, m.id), Parts(|m.payload|), c)
    ensures Rejoin(s, channel, arrivals, strict) == []
    decreases |arrivals|
  {
    if arrivals != [] {
      PushCounted(s, channel, m, part, arrivals[0].at, c);
      FollowsTail(arrivals, m, part);
      hide PushAt, Fragment, Parts;
      assert arrivals[0].body == Body(true, Fragment(m.payload, m.id, part));
      var t := PushAt(s, channel, Fragment(m.payload, m.id, part), arrivals[0].at).0;
      NoneComplete(t, channel, m, part + 1, arrivals[1..], strict, c + 1);
    }
  }

  /** Dropping what has expired takes the message's pieces with it. */
  lemma {:induction false} LateSweep(s: Reassembler, channel: byte, m: Message, part: nat, last: int, now: int)
    requires Halfway(s, channel, m, part, last) && part > 0 && Shaped(s) && now - last > EXPIRY_MILLIS
    ensures Expired(s, now) == {(channel, m.id)} && Sweep(s, Expired(s, now)) == Remove(s, (channel, m.id))
  {
    var key := (channel, m.id);
    assert key in Expired(s, now);
    assert forall k <- Expired(s, now) :: k == key;
    assert Expired(s, now) - {key} == {};
  }

  /** A fragment that comes too late is refused, and the earlier ones are forgotten. */
  lemma {:induction false} LateFragmentIsRefused(s: Reassembler, channel: byte, m: Message, part: nat, last: int, now: int)
    requires Sendable(m) && !FitsWhole(m.payload) && 0 < part < Parts(|m.payload|) && Shaped(s)
    requires Halfway(s, channel, m, part, last) && now - last > EXPIRY_MILLIS
    ensures var (t, result) := PushAt(s, channel, Fragment(m.payload, m.id, part), now);
            result == Invalid && (channel, m.id) !in t.entries
  {
    LateSweep(s, channel, m, part, last, now);
  }

  /** A message interrupted for too long is lost. */
  lemma {:induction false} InterruptedIsLost(s: Reassembler, channel: byte, m: Message, part: nat, last: int, arrivals: seq<Arrival>, strict: bool)
    requires Sendable(m) && !FitsWhole(m.payload) && part < Parts(|m.payload|) && Shaped(s)
    requires Halfway(s, channel, m, part, last) && Follows(arrivals, m, part)
    requires strict || part + |arrivals| <= Parts(|m.payload|)
    requires !Steady(arrivals, Parts(|m.payload|) - part) || !Resumes(arrivals, part, last)
    ensures Rejoin(s, channel, arrivals, strict) == []
    decreases |arrivals|
  {
    hide *;
    SendableLimits(m);
    if !Resumes(arrivals, part, last) {
      LateIsLost(s, channel, m, part, last, arrivals, strict);
    } else {
      SteadyNeedsTwo(arrivals, Parts(|m.payload|) - part);
      var t := RejoinStep(s, channel, m, part, last, arrivals, strict);
      FollowsTail(arrivals, m, part);
      SteadyTail(arrivals, Parts(|m.payload|) - part);
      ResumesAlike(arrivals[1..], part + 1, arrivals[0].at);
      InterruptedIsLost(t, channel, m, part + 1, arrivals[0].at, arrivals[1..], strict);
    }
  }

  lemma {:induction false} SteadyNeedsTwo(arrivals: seq<Arrival>, n: nat)
    ensures !Steady(arrivals, n) ==> |arrivals| > 1 && n > 1
  {
  }

  lemma {:induction false} LateIsLost(s: Reassembler, channel: byte, m: Message, part: nat, last: int, arrivals: seq<Arrival>, strict: bool)
    requires Sendable(m) && !FitsWhole(m.payload) && part < Parts(|m.payload|) < 65536 && Shaped(s)
    requires Halfway(s, channel, m, part, last) && Follows(arrivals, m, part) && !Resumes(arrivals, part, last)
    requires strict || part + |arrivals| <= Parts(|m.payload|)
    ensures Rejoin(s, channel, arrivals, strict) == []
  {
    LateFragmentIsRefused(s, channel, m, part, last, arrivals[0].at);
    FollowsTail(arrivals, m, part);
    hide PushAt, Fragment, Parts, Halfway;
    assert arrivals[0].body == Body(true, Fragment(m.payload, m.id, part));
    if !strict {
      var t := PushAt(s, channel, Fragment(m.payload, m.id, part), arrivals[0].at).0;
      NoneComplete(t, channel, m, part + 1, arrivals[1..], strict, 0);
    }
  }

  /** So is one of too many fragments. */
  lemma {:induction false} OversizedIsLost(channel: byte, m: Message, part: nat, arrivals: seq<Arrival>, strict: bool)
    requires m.id < 65536 && MAX_PARTS < Parts(|m.payload|) < 65536 && Follows(arrivals, m, part)
    requires if strict then part < Parts(|m.payload|) else part + |arrivals| <= Parts(|m.payload|)
    ensures Rejoin(EMPTY, channel, arrivals, strict) == []
    decreases |arrivals|
  {
    if arrivals != [] {
      OversizedIsRefused(EMPTY, channel, m.id, m.payload, part, arrivals[0].at);
      FollowsTail(arrivals, m, part);
      hide Push, Fragment, Parts;
      assert Expired(EMPTY, arrivals[0].at) == {};
      assert arrivals[0].body == Body(true, Fragment(m.payload, m.id, part));
      if !strict {
        OversizedIsLost(channel, m, part + 1, arrivals[1..], strict);
      }
    }
  }

  // ---- One message ----

  lemma {:induction false} WholePieces(m: Message)
    requires Postable(m) && FitsWhole(m.payload)
    ensures Pieces(m) == [Body(false, m.payload)]
  {
  }

  lemma {:induction false} FirstPieces(m: Message, more: seq<Body>, arrivals: seq<Arrival>, k: nat)
    requires Postable(m) && BodiesOf(arrivals) <= Pieces(m) + more && k < |arrivals| && k < |Pieces(m)|
    ensures arrivals[k].body == Pieces(m)[k]
  {
  }

  lemma {:induction false} PiecesFollow(m: Message, more: seq<Body>, arrivals: seq<Arrival>)
    requires Postable(m) && !FitsWhole(m.payload) && BodiesOf(arrivals) <= Pieces(m) + more
    ensures 0 < Parts(|m.payload|) < 65536 && Follows(arrivals, m, 0)
  {
  }

  lemma {:induction false} WholeFirst(s: Reassembler, channel: byte, payload: seq<byte>, arrivals: seq<Arrival>, strict: bool)
    requires Shaped(s) && arrivals != [] && arrivals[0].body == Body(false, payload)
    ensures Rejoin(s, channel, arrivals, strict) == [payload] + Rejoin(s, channel, arrivals[1..], strict)
  {
    hide PushAt;
  }

  lemma {:induction false} NothingStarted(channel: byte, m: Message)
    ensures Shaped(EMPTY) && Halfway(EMPTY, channel, m, 0, 0)
  {
  }

  /** An intact message is the first to come out, as soon as its last packet has arrived. */
  lemma {:induction false} IntactComesOut(channel: byte, m: Message, more: seq<Body>, arrivals: seq<Arrival>, strict: bool)
    requires Postable(m) && Intact(m, arrivals) && BodiesOf(arrivals) <= Pieces(m) + more
    ensures Rejoin(EMPTY, channel, arrivals, strict) == Outcome(channel, m.payload, |Pieces(m)|, arrivals, strict)
  {
    hide Rejoin, Halfway, Follows;
    NothingStarted(channel, m);
    if FitsWhole(m.payload) {
      if arrivals == [] {
        NothingYet(EMPTY, channel, m.payload, 1, strict);
      } else {
        WholePieces(m);
        FirstPieces(m, more, arrivals, 0);
        WholeFirst(EMPTY, channel, m.payload, arrivals, strict);
      }
    } else {
      PiecesFollow(m, more, arrivals);
      hide Pieces, Outcome;
      RejoinRest(EMPTY, channel, m, 0, 0, arrivals, strict);
    }
  }

  /** A message that is not intact does not come out, and ends a strict connection. */
  lemma {:induction false} OtherIsLost(channel: byte, m: Message, more: seq<Body>, arrivals: seq<Arrival>, strict: bool)
    requires Postable(m) && !Intact(m, arrivals) && BodiesOf(arrivals) <= Pieces(m) + more
    requires strict || |arrivals| <= |Pieces(m)|
    ensures Rejoin(EMPTY, channel, arrivals, strict) == []
  {
    NothingStarted(channel, m);
    PiecesFollow(m, more, arrivals);
    hide Rejoin, Halfway, Follows, Pieces, Steady;
    if Parts(|m.payload|) > MAX_PARTS {
      OversizedIsLost(channel, m, 0, arrivals, strict);
    } else {
      InterruptedIsLost(EMPTY, channel, m, 0, 0, arrivals, strict);
    }
  }

  /**
   * All packets of one message, in order, give the message if and only if it fits one packet, or
   * has at most 128 fragments and no two successive ones more than ten seconds apart. Otherwise
   * they give nothing at all.
   */
  lemma {:induction false} MessageComesOutIffIntact(channel: byte, m: Message, arrivals: seq<Arrival>, strict: bool)
    requires Postable(m) && BodiesOf(arrivals) == Pieces(m)
    ensures Rejoin(EMPTY, channel, arrivals, strict) == if Intact(m, arrivals) then [m.payload] else []
  {
    assert BodiesOf(arrivals) <= Pieces(m) + [];
    hide Pieces, Intact, Rejoin;
    if Intact(m, arrivals) {
      IntactComesOut(channel, m, [], arrivals, strict);
      NothingYet(EMPTY, channel, m.payload, 1, strict);
    } else {
      OtherIsLost(channel, m, [], arrivals, strict);
    }
  }

  // ---- Many messages ----

  lemma {:induction false} AfterFirst(messages: seq<Message>, arrivals: seq<Arrival>)
    requires messages != [] && (forall m <- messages :: Postable(m))
    requires BodiesOf(arrivals) <= SendAll(messages) && |arrivals| >= |Pieces(messages[0])|
    ensures var n := |Pieces(messages[0])|;
            && BodiesOf(arrivals[n..]) <= SendAll(messages[1..])
            && |SendAll(messages)| == n + |SendAll(messages[1..])|
  {
    hide Pieces;
    BodiesCut(arrivals, |Pieces(messages[0])|);
  }

  lemma {:induction false} PayloadsTail(messages: seq<Message>, n: nat)
    requires messages != [] && n < |messages|
    ensures Payloads(messages[..n + 1]) == [messages[0].payload] + Payloads(messages[1..][..n])
  {
  }

  /**
   * A strict receiver gets, of an in-order prefix of the packets sent, exactly the messages before
   * the first that is not intact or has not arrived, whatever the times.
   */
  lemma {:induction false} StrictGetsWhole(channel: byte, messages: seq<Message>, arrivals: seq<Arrival>)
    requires (forall m <- messages :: Postable(m)) && BodiesOf(arrivals) <= SendAll(messages)
    ensures Rejoin(EMPTY, channel, arrivals, true) == Payloads(messages[..Whole(messages, arrivals)])
    decreases |messages|
  {
    if messages == [] {
      assert arrivals == [];
    } else {
      var m, n := messages[0], |Pieces(messages[0])|;
      hide Pieces, Intact, Rejoin;
      if !Intact(m, arrivals) {
        OtherIsLost(channel, m, SendAll(messages[1..]), arrivals, true);
      } else {
        IntactComesOut(channel, m, SendAll(messages[1..]), arrivals, true);
        if |arrivals| >= n {
          AfterFirst(messages, arrivals);
          StrictGetsWhole(channel, messages[1..], arrivals[n..]);
          PayloadsTail(messages, Whole(messages[1..], arrivals[n..]));
        }
      }
    }
  }

  /**
   * Either receiver gets a prefix of the messages as long as those that arrive are intact, and all
   * of them once everything has arrived.
   */
  lemma {:induction false} RejoinIsPrefix(channel: byte, messages: seq<Message>, arrivals: seq<Arrival>, strict: bool)
    requires (forall m <- messages :: Postable(m)) && AllIntact(messages, arrivals)
    requires BodiesOf(arrivals) <= SendAll(messages)
    ensures Rejoin(EMPTY, channel, arrivals, strict) <= Payloads(messages)
    ensures |arrivals| == |SendAll(messages)| ==> Rejoin(EMPTY, channel, arrivals, strict) == Payloads(messages)
    decreases |messages|
  {
    hide Pieces, Intact;
    if messages != [] && arrivals != [] {
      var m, n := messages[0], |Pieces(messages[0])|;
      IntactComesOut(channel, m, SendAll(messages[1..]), arrivals, strict);
      if |arrivals| >= n {
        AfterFirst(messages, arrivals);
        hide Rejoin, SendAll, AllIntact;
        RejoinIsPrefix(channel, messages[1..], arrivals[n..], strict);
        assert Payloads(messages) == [m.payload] + Payloads(messages[1..]);
      }
    }
  }

  /** The reassembler of a receiver that goes on, after these arrivals. */
  ghost function After(s: Reassembler, channel: byte, arrivals: seq<Arrival>): (t: Reassembler)
    requires Shaped(s)
    ensures Shaped(t)
    decreases |arrivals|
  {
    if arrivals == [] then s
    else if !arrivals[0].body.fragmented then After(s, channel, arrivals[1..])
    else After(PushAt(s, channel, arrivals[0].body.bytes, arrivals[0].at).0, channel, arrivals[1..])
  }

  lemma {:induction false} RejoinConcat(s: Reassembler, channel: byte, first: seq<Arrival>, second: seq<Arrival>)
    requires Shaped(s)
    ensures Rejoin(s, channel, first + second, false)
            == Rejoin(s, channel, first, false) + Rejoin(After(s, channel, first), channel, second, false)
    decreases |first|
  {
    hide PushAt;
    var all := first + second;
    if first == [] {
      assert all == second;
    } else {
      assert all[1..] == first[1..] + second;
      if first[0].body.fragmented {
        RejoinConcat(PushAt(s, channel, first[0].body.bytes, first[0].at).0, channel, first[1..], second);
      } else {
        RejoinConcat(s, channel, first[1..], second);
      }
    }
  }

  /** A completed message leaves no assembly behind. */
  lemma {:induction false} CompleteRemoves(s: Reassembler, channel: byte, m: Message, part: nat, now: int)
    requires Shaped(s) && m.id < 65536 && part < Parts(|m.payload|) < 65536
    ensures var (t, result) := PushAt(s, channel, Fragment(m.payload, m.id, part), now);
            result.Complete? ==> Counted(t, (channel, m.id), Parts(|m.payload|), 0)
  {
    FragmentFields(m.payload, m.id, part);
    hide Fragment, Chunk, Parts, Conflicts, Sweep;
  }

  /** Whatever was there before, the fragments of a message complete at most one. */
  lemma {:induction false} FragmentsGiveOne(s: Reassembler, channel: byte, m: Message, part: nat, arrivals: seq<Arrival>)
    requires Shaped(s) && m.id < 65536 && Parts(|m.payload|) < 65536 && Follows(arrivals, m, part)
    requires part + |arrivals| <= Parts(|m.payload|)
    ensures |Rejoin(s, channel, arrivals, false)| <= 1
    decreases |arrivals|
  {
    if arrivals != [] {
      CompleteRemoves(s, channel, m, part, arrivals[0].at);
      FollowsTail(arrivals, m, part);
      hide PushAt, Fragment, Parts;
      assert arrivals[0].body == Body(true, Fragment(m.payload, m.id, part));
      var (t, result) := PushAt(s, channel, Fragment(m.payload, m.id, part), arrivals[0].at);
      if result.Complete? {
        NoneComplete(t, channel, m, part + 1, arrivals[1..], false, 0);
      } else {
        FragmentsGiveOne(t, channel, m, part + 1, arrivals[1..]);
      }
    }
  }

  lemma {:induction false} OneForOne(s: Reassembler, channel: byte, m: Message, arrivals: seq<Arrival>)
    requires Shaped(s) && Postable(m) && BodiesOf(arrivals) == Pieces(m)
    ensures |Rejoin(s, channel, arrivals, false)| <= 1
  {
    assert BodiesOf(arrivals) <= Pieces(m) + [];
    if FitsWhole(m.payload) {
      WholePieces(m);
      WholeFirst(s, channel, m.payload, arrivals, false);
    } else {
      PiecesFollow(m, [], arrivals);
      hide Pieces, Rejoin;
      FragmentsGiveOne(s, channel, m, 0, arrivals);
    }
  }

  /** The arrivals of everything sent, cut after the first message. */
  lemma {:induction false} CutFirst(messages: seq<Message>, arrivals: seq<Arrival>)
    requires messages != [] && (forall m <- messages :: Postable(m)) && BodiesOf(arrivals) == SendAll(messages)
    ensures var n := |Pieces(messages[0])|;
            && n <= |arrivals| && BodiesOf(arrivals[..n]) == Pieces(messages[0])
            && BodiesOf(arrivals[n..]) == SendAll(messages[1..]) && arrivals == arrivals[..n] + arrivals[n..]
  {
    hide Pieces;
    CutBodies(Pieces(messages[0]), SendAll(messages[1..]), arrivals);
  }

  lemma {:induction false} BodiesCut(arrivals: seq<Arrival>, n: nat)
    requires n <= |arrivals|
    ensures BodiesOf(arrivals[..n]) == BodiesOf(arrivals)[..n] && BodiesOf(arrivals[n..]) == BodiesOf(arrivals)[n..]
  {
    hide *;
  }

  lemma {:induction false} CutBodies(first: seq<Body>, second: seq<Body>, arrivals: seq<Arrival>)
    requires BodiesOf(arrivals) == first + second
    ensures BodiesOf(arrivals[..|first|]) == first && BodiesOf(arrivals[|first|..]) == second
    ensures arrivals == arrivals[..|first|] + arrivals[|first|..]
  {
    hide *;
    BodiesCut(arrivals, |first|);
  }

  lemma {:induction false} AtMostOneEach(s: Reassembler, channel: byte, messages: seq<Message>, arrivals: seq<Arrival>)
    requires Shaped(s) && (forall m <- messages :: Postable(m)) && BodiesOf(arrivals) == SendAll(messages)
    ensures |Rejoin(s, channel, arrivals, false)| <= |messages|
    decreases |messages|
  {
    if messages == [] {
      assert arrivals == [];
    } else {
      CutFirst(messages, arrivals);
      hide Rejoin, SendAll, Pieces, After;
      var n := |Pieces(messages[0])|;
      RejoinConcat(s, channel, arrivals[..n], arrivals[n..]);
      OneForOne(s, channel, messages[0], arrivals[..n]);
      AtMostOneEach(After(s, channel, arrivals[..n]), channel, messages[1..], arrivals[n..]);
    }
  }

  lemma {:induction false} IntactCut(m: Message, arrivals: seq<Arrival>)
    requires Postable(m) && |Pieces(m)| <= |arrivals|
    ensures Intact(m, arrivals[..|Pieces(m)|]) == Intact(m, arrivals)
  {
    var first := arrivals[..|Pieces(m)|];
    if !FitsWhole(m.payload) {
      assert forall k :: 0 < k < |first| ==> InTime(first, k) == InTime(arrivals, k);
    }
  }

  /** A broken message is missing from what comes out, whatever follows it. */
  lemma {:induction false} BrokenCostsOne(channel: byte, messages: seq<Message>, arrivals: seq<Arrival>)
    requires messages != [] && (forall m <- messages :: Postable(m)) && BodiesOf(arrivals) == SendAll(messages)
    requires !Intact(messages[0], arrivals)
    ensures |Rejoin(EMPTY, channel, arrivals, false)| < |messages|
  {
    CutFirst(messages, arrivals);
    hide Rejoin, SendAll, Pieces, After, Intact;
    var m, n := messages[0], |Pieces(messages[0])|;
    IntactCut(m, arrivals);
    RejoinConcat(EMPTY, channel, arrivals[..n], arrivals[n..]);
    MessageComesOutIffIntact(channel, m, arrivals[..n], false);
    AtMostOneEach(After(EMPTY, channel, arrivals[..n]), channel, messages[1..], arrivals[n..]);
  }

  /** Once everything has arrived, either receiver has all the messages exactly if all are intact. */
  lemma {:induction false} RejoinIsExact(channel: byte, messages: seq<Message>, arrivals: seq<Arrival>, strict: bool)
    requires (forall m <- messages :: Postable(m)) && BodiesOf(arrivals) == SendAll(messages)
    ensures Rejoin(EMPTY, channel, arrivals, strict) == Payloads(messages) <==> AllIntact(messages, arrivals)
    decreases |messages|
  {
    if messages != [] {
      var m, n := messages[0], |Pieces(messages[0])|;
      CutFirst(messages, arrivals);
      assert n > 0;
      hide Rejoin, SendAll, Pieces, Intact;
      if Intact(m, arrivals) {
        IntactComesOut(channel, m, SendAll(messages[1..]), arrivals, strict);
        RejoinIsExact(channel, messages[1..], arrivals[n..], strict);
        assert Payloads(messages) == [m.payload] + Payloads(messages[1..]);
      } else if strict {
        OtherIsLost(channel, m, SendAll(messages[1..]), arrivals, strict);
      } else {
        BrokenCostsOne(channel, messages, arrivals);
      }
    }
  }

  /** Messages of one packet each come out whatever the reassembler holds. */
  lemma {:induction false} WholeOnes(s: Reassembler, channel: byte, messages: seq<Message>, arrivals: seq<Arrival>)
    requires Shaped(s) && (forall m <- messages :: Postable(m)) && (forall m <- messages :: FitsWhole(m.payload))
    requires BodiesOf(arrivals) == SendAll(messages)
    ensures Rejoin(s, channel, arrivals, false) == Payloads(messages)
    decreases |messages|
  {
    if messages == [] {
      assert arrivals == [];
    } else {
      var m, more := messages[0], messages[1..];
      assert m in messages;
      WholePieces(m);
      CutFirst(messages, arrivals);
      hide Pieces, SendAll, Rejoin;
      assert arrivals[0].body == Body(false, m.payload);
      WholeFirst(s, channel, m.payload, arrivals, false);
      WholeOnes(s, channel, more, arrivals[1..]);
      assert Payloads(messages) == [m.payload] + Payloads(more);
    }
  }

  /**
   * A receiver that goes on skips a message that is not intact and returns all the messages of one
   * packet after it: what comes out is then not a prefix of what was sent.
   */
  lemma {:induction false} BrokenIsSkipped(channel: byte, broken: Message, more: seq<Message>, arrivals: seq<Arrival>)
    requires Postable(broken) && (forall m <- more :: Postable(m)) && (forall m <- more :: FitsWhole(m.payload))
    requires BodiesOf(arrivals) == SendAll([broken] + more) && !Intact(broken, arrivals)
    ensures Rejoin(EMPTY, channel, arrivals, false) == Payloads(more)
  {
    var messages, n := [broken] + more, |Pieces(broken)|;
    assert messages[1..] == more;
    CutFirst(messages, arrivals);
    IntactCut(broken, arrivals);
    hide Rejoin, SendAll, Pieces, After, Intact;
    RejoinConcat(EMPTY, channel, arrivals[..n], arrivals[n..]);
    MessageComesOutIffIntact(channel, broken, arrivals[..n], false);
    WholeOnes(After(EMPTY, channel, arrivals[..n]), channel, more, arrivals[n..]);
  }

  const SHORT := Message([7], 2)

  function Long(): (m: Message)
    ensures |m.payload| == 1100 && m.id == 1
  {
    Message(seq(1100, _ => 0), 1)
  }

  lemma {:induction false} LongIsCutInTwo()
    ensures Postable(Long()) && Postable(SHORT) && FitsWhole(SHORT.payload)
    ensures !FitsWhole(Long().payload) && |Pieces(Long())| == Parts(1100) == 2 <= MAX_PARTS
  {
    hide Long;
    assert Parts(1100) == 2;
  }

  /** The two fragments of a long message eleven seconds apart, then a short one. */
  function LateRun(): (r: seq<Arrival>)
    ensures |r| == 3
  {
    LongIsCutInTwo();
    var b := Pieces(Long());
    [Arrival(b[0], 0), Arrival(b[1], 11000), Arrival(Body(false, SHORT.payload), 11000)]
  }

  lemma {:induction false} ThreeBodies(b: seq<Body>, r: seq<Arrival>)
    requires |b| == 2 && |r| == 3 && b[0] == r[0].body && b[1] == r[1].body
    ensures BodiesOf(r) == b + [r[2].body]
  {
  }

  lemma {:induction false} LateRunIsSent()
    ensures Postable(Long()) && Postable(SHORT) && BodiesOf(LateRun()) == SendAll([Long(), SHORT])
    ensures !Intact(Long(), LateRun())
  {
    LongIsCutInTwo();
    TwoMessages(Long(), SHORT);
    WholePieces(SHORT);
    ThreeBodies(Pieces(Long()), LateRun());
    hide Long, Pieces, SendAll, LateRun;
    assert !InTime(LateRun(), 1);
  }

  lemma {:induction false} TwoMessages(a: Message, b: Message)
    requires Postable(a) && Postable(b)
    ensures SendAll([a, b]) == Pieces(a) + Pieces(b)
  {
    hide Pieces;
    assert [a, b][1..] == [b] && [b][1..] == [];
    assert SendAll([b]) == Pieces(b) + SendAll([]) == Pieces(b);
    assert SendAll([a, b]) == Pieces(a) + SendAll([b]);
  }

  lemma {:induction false} OneShort()
    ensures (forall m <- [SHORT] :: Postable(m)) && (forall m <- [SHORT] :: FitsWhole(m.payload))
    ensures Payloads([SHORT]) == [SHORT.payload] && [Long()] + [SHORT] == [Long(), SHORT]
    ensures Payloads([Long(), SHORT])[0] == Long().payload != SHORT.payload
  {
    LongIsCutInTwo();
    hide Long;
  }

  /** In that run only the short message comes out, unless the receiver is strict: then none does. */
  lemma {:induction false} SkippingBreaksPrefix(channel: byte)
    ensures Rejoin(EMPTY, channel, LateRun(), false) == [SHORT.payload]
    ensures !(Rejoin(EMPTY, channel, LateRun(), false) <= Payloads([Long(), SHORT]))
    ensures Rejoin(EMPTY, channel, LateRun(), true) == []
  {
    LongIsCutInTwo();
    LateRunIsSent();
    TwoMessages(Long(), SHORT);
    OneShort();
    hide Long, Pieces, SendAll, Rejoin, LateRun, Intact, Payloads, Postable, FitsWhole;
    BrokenIsSkipped(channel, Long(), [SHORT], LateRun());
    OtherIsLost(channel, Long(), Pieces(SHORT), LateRun(), true);
  }

  /**
   * End to end: if the bodies offered to an ordered channel are messages cut into fragments, then
   * in every run, over a network that loses, duplicates and reorders, and whatever the arrival
   * times, a reassembler behind the ordered receiver that stops at the first refusal gets exactly
   * the messages before the first that has not arrived or is not intact, a prefix of those sent.
   */
  lemma {:induction false} MessagesArriveInOrder(tx: C.Tx, actions: seq<C.Action>, messages: seq<Message>, channel: byte, arrivals: seq<Arrival>)
    requires tx == C.WINDOW_SENDER || tx == C.QUEUE_SENDER
    requires (forall m <- messages :: Postable(m)) && T.Offered(actions) == SendAll(messages)
    requires BodiesOf(arrivals) == T.Bodies(T.Run(tx, true, actions).rx.delivered)
    ensures var got := Rejoin(EMPTY, channel, arrivals, true);
            got == Payloads(messages[..Whole(messages, arrivals)]) && got <= Payloads(messages)
    ensures AllIntact(messages, arrivals) ==> Rejoin(EMPTY, channel, arrivals, false) <= Payloads(messages)
  {
    T.OrderedDelivery(tx, actions);
    hide Rejoin, SendAll, AllIntact, Whole;
    StrictGetsWhole(channel, messages, arrivals);
    if AllIntact(messages, arrivals) {
      RejoinIsPrefix(channel, messages, arrivals, false);
    }
  }
}
