/**
 * The Rust client end to end: messages cut into fragments, offered to a reliable channel, carried
 * over a network that loses, duplicates and reorders, and put together in the order of arrival.
 */
module ClientTheorems {
  import opened Packets
  import opened Fragments
  import opened Messages
  import opened ClientMessages
  import C = ChannelSystem
  import K = ClientChannel
  import T = ChannelTheorems

  // ---- Which packet belongs to which message ----

  /** The message and the piece that are the n-th packet sent. */
  function Locate(messages: seq<Message>, n: nat): (r: (nat, nat))
    requires (forall m <- messages :: Postable(m)) && n < |SendAll(messages)|
    ensures r.0 < |messages| && r.1 < |Pieces(messages[r.0])|
    decreases |messages|
  {
    var first := |Pieces(messages[0])|;
    if n < first then (0, n)
    else
      var (j, part) := Locate(messages[1..], n - first);
      (j + 1, part)
  }

  /** How many packets are sent before those of message j. */
  function Offset(messages: seq<Message>, j: nat): nat
    requires (forall m <- messages :: Postable(m)) && j <= |messages|
  {
    if j == 0 then 0 else |Pieces(messages[0])| + Offset(messages[1..], j - 1)
  }

  lemma {:induction false} LocateIs(messages: seq<Message>, n: nat)
    requires (forall m <- messages :: Postable(m)) && n < |SendAll(messages)|
    ensures var (j, part) := Locate(messages, n);
            SendAll(messages)[n] == Pieces(messages[j])[part] && Offset(messages, j) + part == n
    decreases |messages|
  {
    hide Pieces;
    var first := |Pieces(messages[0])|;
    if n >= first {
      LocateIs(messages[1..], n - first);
    }
  }

  /** The dispatched packets as pieces of the messages, with the times they were dispatched at. */
  function GotOf(messages: seq<Message>, dispatched: seq<C.DataCopy>, times: seq<int>): (r: seq<Got>)
    requires (forall m <- messages :: Postable(m)) && |times| == |dispatched|
    requires forall k :: 0 <= k < |dispatched| ==> dispatched[k].number < |SendAll(messages)|
    ensures |r| == |dispatched|
    ensures forall k :: 0 <= k < |r| ==>
              r[k] == Got(Locate(messages, dispatched[k].number).0, Locate(messages, dispatched[k].number).1, times[k])
  {
    seq(|dispatched|, k requires 0 <= k < |dispatched| =>
      Got(Locate(messages, dispatched[k].number).0, Locate(messages, dispatched[k].number).1, times[k]))
  }

  /** What is dispatched are packets of the messages, each once. */
  lemma {:induction false} DispatchedAreDeliveries(messages: seq<Message>, dispatched: seq<C.DataCopy>, times: seq<int>)
    requires (forall m <- messages :: Postable(m)) && |times| == |dispatched|
    requires forall k :: 0 <= k < |dispatched| ==>
               dispatched[k].number < |SendAll(messages)| && dispatched[k].packet.body == SendAll(messages)[dispatched[k].number]
    requires forall j, k :: 0 <= j < k < |dispatched| ==> dispatched[j].number != dispatched[k].number
    ensures var got := GotOf(messages, dispatched, times);
            && Deliveries(messages, got)
            && forall k :: 0 <= k < |got| ==> BodyOf(messages, got[k]) == dispatched[k].packet.body && got[k].at == times[k]
  {
    var got := GotOf(messages, dispatched, times);
    hide Pieces, SendAll, Locate;
    assert Sent(messages);
    forall k | 0 <= k < |got|
      ensures Deliverable(messages, got[k]) && BodyOf(messages, got[k]) == dispatched[k].packet.body
    {
      LocateIs(messages, dispatched[k].number);
    }
    forall i, k | 0 <= i < k < |got|
      ensures got[i].message != got[k].message || got[i].part != got[k].part
    {
      LocateIs(messages, dispatched[i].number);
      LocateIs(messages, dispatched[k].number);
    }
  }

  /** The packets as the client dispatches them, on one channel. */
  function Dispatched(channel: byte, dispatched: seq<C.DataCopy>, times: seq<int>): (r: seq<Incoming>)
    requires |times| == |dispatched|
    ensures |r| == |dispatched|
    ensures forall k :: 0 <= k < |r| ==> r[k] == Incoming(channel, Arrival(dispatched[k].packet.body, times[k]))
  {
    seq(|dispatched|, k requires 0 <= k < |dispatched| => Incoming(channel, Arrival(dispatched[k].packet.body, times[k])))
  }

  /** All messages on one channel. */
  function Only(channel: byte): nat -> byte { (j: nat) => channel }

  /**
   * In every run, whatever the times, the client gets messages that were sent, each at most once,
   * in the order of their last packets: exactly those completed before the first fragment it
   * refuses. The ids of messages open at one time must differ.
   */
  lemma {:induction false} ClientReceives(tx: C.Tx, ordered: bool, actions: seq<C.Action>, messages: seq<Message>, channel: byte, times: seq<int>)
    requires tx == C.WINDOW_SENDER || tx == C.QUEUE_SENDER
    requires (forall m <- messages :: Postable(m)) && T.Offered(actions) == SendAll(messages)
    requires |times| == |K.ClientRun(tx, ordered, actions).1.dispatched|
    ensures var dispatched := K.ClientRun(tx, ordered, actions).1.dispatched;
            && (forall k :: 0 <= k < |dispatched| ==> dispatched[k].number < |SendAll(messages)|)
            && var got := GotOf(messages, dispatched, times);
               && Deliveries(messages, got)
               && NewlyDone(messages, [], got, Came(messages, [], got)) && InTurn(messages, [], got, Came(messages, [], got))
               && (Clear(Only(channel), messages, [], got) ==>
                     Dispatch(EMPTY, Dispatched(channel, dispatched, times)) == PayloadsAt(Only(channel), messages, Came(messages, [], got)))
  {
    K.DispatchedOnce(tx, ordered, actions);
    var dispatched := K.ClientRun(tx, ordered, actions).1.dispatched;
    hide K.ClientRun, SendAll, NewlyDone, InTurn, Came, Clear, Dispatch, Deliveries;
    DispatchedAreDeliveries(messages, dispatched, times);
    var got := GotOf(messages, dispatched, times);
    assert ArrivalsOf(Only(channel), messages, got) == Dispatched(channel, dispatched, times);
    assert [] + got == got;
    CameInOrder(messages, [], got);
    if Clear(Only(channel), messages, [], got) {
      ClientGets(Only(channel), messages, got);
    }
  }

  // ---- Nothing is refused when little is under way ----

  /** What the fragments of each message take up at most. */
  function Sizes(messages: seq<Message>): (r: seq<nat>)
    ensures |r| == |messages| && forall j :: 0 <= j < |r| ==> r[j] == Parts(|messages[j].payload|) * FRAGMENT_SIZE
  {
    seq(|messages|, j requires 0 <= j < |messages| => Parts(|messages[j].payload|) * FRAGMENT_SIZE)
  }

  /** At most 64 messages that fit the reassembler together. */
  predicate Modest(messages: seq<Message>) {
    && Sent(messages) && |messages| <= MAX_ASSEMBLIES && Total(Sizes(messages)) + FRAGMENT_SIZE <= MAX_BYTES
    && forall j :: 0 <= j < |messages| ==> Parts(|messages[j].payload|) <= MAX_PARTS
  }

  /** All within ten seconds. */
  predicate Brisk(h: seq<Got>, start: int) { forall i :: 0 <= i < |h| ==> start <= h[i].at <= start + EXPIRY_MILLIS }

  lemma {:induction false} BytesAreBounded(payload: seq<byte>, h: seq<Got>, j: nat, part: nat)
    requires part <= Parts(|payload|)
    ensures BytesFrom(payload, h, j, part) <= (Parts(|payload|) - part) * FRAGMENT_SIZE
    decreases Parts(|payload|) - part
  {
    if part < Parts(|payload|) {
      hide Has, Parts;
      BytesAreBounded(payload, h, j, part + 1);
    }
  }

  lemma {:induction false} TotalIsMonotone(s: seq<nat>, t: seq<nat>)
    requires |s| == |t| && forall j :: 0 <= j < |s| ==> s[j] <= t[j]
    ensures Total(s) <= Total(t)
  {
    if s != [] {
      TotalIsMonotone(s[1..], t[1..]);
    }
  }

  lemma {:induction false} FewBelow(s: set<nat>, n: nat)
    requires forall j <- s :: j < n
    ensures |s| <= n
    decreases n
  {
    if n > 0 {
      FewBelow(s - {n - 1}, n - 1);
      assert s == (s - {n - 1}) + (s * {n - 1});
      assert |s| <= |s - {n - 1}| + 1;
    } else {
      assert s == {};
    }
  }

  lemma {:induction false} LastAtIsBrisk(h: seq<Got>, start: int, j: nat)
    requires Brisk(h, start) && Begun(h, j)
    ensures start <= LastAt(h, j)
  {
    if h[|h| - 1].message != j {
      var i :| 0 <= i < |h| && h[i].message == j;
      assert h[..|h| - 1][i] == h[i];
      LastAtIsBrisk(h[..|h| - 1], start, j);
    }
  }

  lemma {:induction false} ModestIsNotRefused(messages: seq<Message>, h: seq<Got>, g: Got, start: int)
    requires Modest(messages) && Brisk(h, start) && g.at <= start + EXPIRY_MILLIS && Deliverable(messages, g)
    ensures !Refuses(messages, h, g)
  {
    FewBelow(OpenSet(messages, h), |messages|);
    forall j | 0 <= j < |messages|
      ensures BytesEach(messages, h)[j] <= Sizes(messages)[j]
    {
      BytesAreBounded(messages[j].payload, h, j, 0);
    }
    TotalIsMonotone(BytesEach(messages, h), Sizes(messages));
    forall j <- OpenSet(messages, h)
      ensures g.at - LastAt(h, j) <= EXPIRY_MILLIS
    {
      LastAtIsBrisk(h, start, j);
    }
    if g.message !in OpenSet(messages, h) && |OpenSet(messages, h)| >= MAX_ASSEMBLIES {
      FewBelow(OpenSet(messages, h) + {g.message}, |messages|);
    }
  }

  /** So every message whose packets have all arrived comes out, in whatever order they arrived. */
  lemma {:induction false} ModestIsAccepted(messages: seq<Message>, h: seq<Got>, rest: seq<Got>, start: int)
    requires Modest(messages) && Brisk(h + rest, start) && forall i :: 0 <= i < |rest| ==> Deliverable(messages, rest[i])
    ensures Accepted(messages, h, rest)
    decreases |rest|
  {
    if rest != [] {
      assert h + [rest[0]] + rest[1..] == h + rest;
      assert forall i :: 0 <= i < |h| ==> (h + rest)[i] == h[i];
      assert (h + rest)[|h|] == rest[0];
      hide Modest, Deliverable, Refuses;
      ModestIsNotRefused(messages, h, rest[0], start);
      ModestIsAccepted(messages, h + [rest[0]], rest[1..], start);
    }
  }

  /** All packets of such messages, in any order within ten seconds: every message comes out, once. */
  lemma {:induction false} EveryMessageComesOut(channels: nat -> byte, messages: seq<Message>, h: seq<Got>, start: int)
    requires Deliveries(messages, h) && Clear(channels, messages, [], h) && AllFinished(messages, h)
    requires Modest(messages) && Brisk(h, start)
    ensures Dispatch(EMPTY, ArrivalsOf(channels, messages, h)) == PayloadsAt(channels, messages, Came(messages, [], h))
    ensures InTurn(messages, [], h, Came(messages, [], h)) && AllIn(|messages|, Came(messages, [], h))
  {
    assert [] + h == h;
    hide Modest, Brisk, Deliveries, Deliverable, Clear, Dispatch, ArrivalsOf, PayloadsAt, Finished, InTurn, NewlyDone, Came, AllIn, AllFinished;
    ClientGets(channels, messages, h);
    CameInOrder(messages, [], h);
    AllCome(messages, h, start);
  }

  /** All packets of all messages have arrived. */
  predicate AllFinished(messages: seq<Message>, h: seq<Got>)
    requires Sent(messages)
  {
    forall j: nat :: j < |messages| ==> Finished(messages, h, j)
  }

  predicate AllIn(n: nat, came: seq<nat>) { forall j: nat :: j < n ==> j in came }

  lemma {:induction false} AllCome(messages: seq<Message>, h: seq<Got>, start: int)
    requires Deliveries(messages, h) && AllFinished(messages, h) && Modest(messages) && Brisk(h, start)
    ensures AllIn(|messages|, Came(messages, [], h))
  {
    assert forall i :: 0 <= i < |h| ==> Deliverable(messages, h[i]);
    hide Modest, Brisk, Deliveries, Deliverable, Finished, Came;
    forall j: nat | j < |messages|
      ensures j in Came(messages, [], h)
    {
      ModestComes(messages, h, start, j);
    }
  }

  lemma {:induction false} ModestComes(messages: seq<Message>, h: seq<Got>, start: int, j: nat)
    requires Modest(messages) && Brisk(h, start) && (forall i :: 0 <= i < |h| ==> Deliverable(messages, h[i]))
    requires j < |messages| && Finished(messages, h, j)
    ensures j in Came(messages, [], h)
  {
    assert [] + h == h;
    NothingFinished(messages, j);
    hide Brisk, Deliverable, Finished, Came, Accepted;
    ModestIsAccepted(messages, [], h, start);
    FinishedCame(messages, [], h, j);
  }

  // ---- A run in which a message overtakes another ----

  /** The first fragment of a long message, a short message sent after it, then the other fragment. */
  const OVERTAKING := [Got(0, 0, 0), Got(1, 0, 0), Got(0, 1, 0)]

  function Two(): seq<Message> { [Long(), SHORT] }

  lemma {:induction false} TwoPieces()
    ensures Sent(Two()) && |Two()| == 2 && |Pieces(Two()[0])| == 2 && |Pieces(Two()[1])| == 1
    ensures !FitsWhole(Two()[0].payload) && FitsWhole(Two()[1].payload)
    ensures Two()[0].payload == Long().payload && Two()[1].payload == SHORT.payload
    ensures |Two()[0].payload| == 1100 && |Two()[1].payload| == 1 && Parts(1100) == 2 && Parts(1) == 1
  {
    LongIsCutInTwo();
    hide Long, Pieces;
    WholePieces(SHORT);
  }

  lemma {:induction false} OvertakingIsDelivered()
    ensures Deliveries(Two(), OVERTAKING) && Modest(Two()) && Brisk(OVERTAKING, 0)
  {
    TwoPieces();
    hide Two, Pieces, FitsWhole;
    var sizes := Sizes(Two());
    assert sizes[0] == 2 * FRAGMENT_SIZE && sizes[1] == FRAGMENT_SIZE;
    assert sizes == [2 * FRAGMENT_SIZE, FRAGMENT_SIZE];
    assert Total([FRAGMENT_SIZE]) == FRAGMENT_SIZE by {
      assert [FRAGMENT_SIZE][1..] == [];
    }
    assert sizes[1..] == [FRAGMENT_SIZE];
  }

  /** Which message is complete after each of the three packets. */
  lemma {:induction false} OvertakingFinishes()
    ensures Sent(Two()) && |Two()| == 2
    ensures !Finished(Two(), OVERTAKING[..1], 0)
    ensures Finished(Two(), OVERTAKING[..2], 1)
    ensures Finished(Two(), OVERTAKING[..3], 0)
  {
    TwoPieces();
    hide Two, Pieces;
    var one, two, three := OVERTAKING[..1], OVERTAKING[..2], OVERTAKING[..3];
    assert !Has(one, 0, 1);
    assert two[1] == Got(1, 0, 0) && Has(two, 1, 0);
    assert three[0] == Got(0, 0, 0) && Has(three, 0, 0);
    assert three[2] == Got(0, 1, 0) && Has(three, 0, 1);
  }

  lemma {:induction false} OvertakingIsClear(channels: nat -> byte)
    ensures Deliveries(Two(), OVERTAKING) && Clear(channels, Two(), [], OVERTAKING)
  {
    OvertakingIsDelivered();
    TwoPieces();
    hide Two, Pieces, FitsWhole;
    var a, b, c := OVERTAKING[0], OVERTAKING[1], OVERTAKING[2];
    assert OVERTAKING[1..] == [b, c] && [b, c][1..] == [c] && [c][1..] == [];
    forall h: seq<Got>, j | j in OpenSet(Two(), h)
      ensures j == 0
    {
    }
    hide OpenSet;
    assert Clear(channels, Two(), [a, b, c], []);
    assert [a, b] + [c] == [a, b, c] && Clear(channels, Two(), [a, b], [c]);
    assert [a] + [b] == [a, b] && Clear(channels, Two(), [a], [b, c]);
    assert [] + [a] == [a];
  }

  lemma {:induction false} ThreePackets(messages: seq<Message>, a: Got, b: Got, c: Got)
    requires Sent(messages) && Deliverable(messages, a) && Deliverable(messages, b) && Deliverable(messages, c)
    requires Accepted(messages, [], [a, b, c])
    requires !Finished(messages, [a], a.message) && Finished(messages, [a, b], b.message) && Finished(messages, [a, b, c], c.message)
    ensures Came(messages, [], [a, b, c]) == [b.message, c.message]
  {
    hide Refuses, Finished, Deliverable, Sent;
    assert [a, b, c][1..] == [b, c] && [b, c][1..] == [c] && [c][1..] == [];
    assert [] + [a] == [a] && [a] + [b] == [a, b] && [a, b] + [c] == [a, b, c];
    assert Came(messages, [a, b, c], []) == [];
    assert Accepted(messages, [a], [b, c]) && Accepted(messages, [a, b], [c]);
    assert Came(messages, [a, b], [c]) == [c.message];
  }

  lemma {:induction false} OvertakingCame()
    ensures Deliveries(Two(), OVERTAKING) && Came(Two(), [], OVERTAKING) == [1, 0]
  {
    OvertakingIsDelivered();
    OvertakingFinishes();
    assert [] + OVERTAKING == OVERTAKING;
    ModestIsAccepted(Two(), [], OVERTAKING, 0);
    var a, b, c := OVERTAKING[0], OVERTAKING[1], OVERTAKING[2];
    assert OVERTAKING == [a, b, c] && OVERTAKING[..1] == [a] && OVERTAKING[..2] == [a, b] && OVERTAKING[..3] == [a, b, c];
    assert Deliverable(Two(), a) && Deliverable(Two(), b) && Deliverable(Two(), c);
    hide Two, Came, Accepted, Finished, Deliverable, Modest, Brisk, Deliveries, Sent;
    ThreePackets(Two(), a, b, c);
  }

  /** The short message comes out first: what the client gets is not a prefix of what was sent. */
  lemma {:induction false} OvertakingBreaksPrefix(channel: byte)
    ensures Deliveries(Two(), OVERTAKING)
    ensures var got := PayloadsOn(Dispatch(EMPTY, ArrivalsOf(Only(channel), Two(), OVERTAKING)), channel);
            got == [SHORT.payload, Long().payload] && !(got <= Payloads(Two()))
  {
    OvertakingCame();
    OvertakingIsClear(Only(channel));
    TwoPieces();
    hide Came, Clear, Deliveries, Dispatch, ArrivalsOf, Long;
    ClientGets(Only(channel), Two(), OVERTAKING);
    var out := PayloadsAt(Only(channel), Two(), [1, 0]);
    assert out == [(channel, SHORT.payload), (channel, Long().payload)];
    var second := out[1..];
    assert second == [(channel, Long().payload)] && second[1..] == [];
    assert PayloadsOn(second, channel) == [Long().payload];
    assert Payloads(Two())[0] == Long().payload && |Long().payload| != |SHORT.payload|;
  }

  // ---- When it is a prefix ----

  /** What comes out on one channel. */
  function PayloadsOn(out: seq<(byte, seq<byte>)>, c: byte): seq<seq<byte>> {
    if out == [] then [] else (if out[0].0 == c then [out[0].1] else []) + PayloadsOn(out[1..], c)
  }

  function PayloadsOf(messages: seq<Message>, indices: seq<nat>): (r: seq<seq<byte>>)
    requires forall k :: 0 <= k < |indices| ==> indices[k] < |messages|
    ensures |r| == |indices| && forall k :: 0 <= k < |r| ==> r[k] == messages[indices[k]].payload
  {
    seq(|indices|, k requires 0 <= k < |indices| => messages[indices[k]].payload)
  }

  lemma {:induction false} OutOn(channels: nat -> byte, messages: seq<Message>, came: seq<nat>, c: byte)
    requires forall k :: 0 <= k < |came| ==> came[k] < |messages|
    ensures PayloadsOn(PayloadsAt(channels, messages, came), c) == PayloadsOf(messages, On(channels, came, c, |messages|))
    decreases |came|
  {
    if came != [] {
      var tail := On(channels, came[1..], c, |messages|);
      assert PayloadsAt(channels, messages, came)[1..] == PayloadsAt(channels, messages, came[1..]);
      OutOn(channels, messages, came[1..], c);
      hide PayloadsAt, PayloadsOf, On;
      assert came == [came[0]] + came[1..];
      OnHead(channels, came[0], came[1..], c, |messages|);
      OneMorePayload(messages, came[0], tail);
    }
  }

  lemma {:induction false} OneMorePayload(messages: seq<Message>, j: nat, tail: seq<nat>)
    requires j < |messages| && forall k :: 0 <= k < |tail| ==> tail[k] < |messages|
    ensures forall k :: 0 <= k < |[j] + tail| ==> ([j] + tail)[k] < |messages|
    ensures PayloadsOf(messages, [j] + tail) == [messages[j].payload] + PayloadsOf(messages, tail)
  {
  }

  predicate DistinctPayloads(messages: seq<Message>) {
    forall i, j :: 0 <= i < j < |messages| ==> messages[i].payload != messages[j].payload
  }

  lemma {:induction false} PrefixOfPayloads(messages: seq<Message>, a: seq<nat>, b: seq<nat>)
    requires (forall k :: 0 <= k < |a| ==> a[k] < |messages|) && forall k :: 0 <= k < |b| ==> b[k] < |messages|
    ensures a <= b ==> PayloadsOf(messages, a) <= PayloadsOf(messages, b)
    ensures DistinctPayloads(messages) && PayloadsOf(messages, a) <= PayloadsOf(messages, b) ==> a <= b
  {
    if DistinctPayloads(messages) && PayloadsOf(messages, a) <= PayloadsOf(messages, b) {
      forall k | 0 <= k < |a|
        ensures a[k] == b[k]
      {
        assert messages[a[k]].payload == PayloadsOf(messages, a)[k] == PayloadsOf(messages, b)[k] == messages[b[k]].payload;
      }
    }
  }

  /**
   * What the client gets on a channel is a prefix of what was sent on it if the messages are
   * completed in the order they were sent in; and only then, unless two cannot be told apart.
   */
  lemma {:induction false} PrefixIffCompletedInOrder(channels: nat -> byte, messages: seq<Message>, h: seq<Got>, c: byte)
    requires Deliveries(messages, h) && Clear(channels, messages, [], h)
    ensures var got := PayloadsOn(Dispatch(EMPTY, ArrivalsOf(channels, messages, h)), c);
            var sent := PayloadsOf(messages, SentOn(channels, |messages|, c, 0));
            && (CompletesInOrder(channels, messages, [], h, c) ==> got <= sent)
            && (DistinctPayloads(messages) && got <= sent ==> CompletesInOrder(channels, messages, [], h, c))
  {
    ClientGets(channels, messages, h);
    InOrderIffCompletedInOrder(channels, messages, h, c);
    hide Came, Deliveries, Clear, Dispatch, ArrivalsOf, CompletesInOrder, On, SentOn;
    var came := Came(messages, [], h);
    OutOn(channels, messages, came, c);
    PrefixOfPayloads(messages, On(channels, came, c, |messages|), SentOn(channels, |messages|, c, 0));
  }
}
