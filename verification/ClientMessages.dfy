/**
 * What the Rust client makes of messages whose packets reach it in any order. The client dispatches
 * every new packet as it arrives and gives up its connection at the first fragment that is refused.
 */
module ClientMessages {
  import opened Packets
  import opened Fragments
  import opened Messages

  /** A packet that arrived: which message it is of, which of its pieces, and when. */
  datatype Got = Got(message: nat, part: nat, at: int)

  predicate Sent(messages: seq<Message>) { forall j :: 0 <= j < |messages| ==> Postable(messages[j]) }

  predicate Deliverable(messages: seq<Message>, g: Got)
    requires Sent(messages)
  {
    g.message < |messages| && g.part < |Pieces(messages[g.message])|
  }

  /** No packet twice. */
  predicate Once(h: seq<Got>) {
    forall i, k :: 0 <= i < k < |h| ==> h[i].message != h[k].message || h[i].part != h[k].part
  }

  /** Packets of these messages, each at most once, in any order. */
  predicate Deliveries(messages: seq<Message>, h: seq<Got>) {
    Sent(messages) && (forall i :: 0 <= i < |h| ==> Deliverable(messages, h[i])) && Once(h)
  }

  function BodyOf(messages: seq<Message>, g: Got): Body
    requires Sent(messages) && Deliverable(messages, g)
  {
    Pieces(messages[g.message])[g.part]
  }

  /** A packet on one of the client's channels. */
  datatype Incoming = Incoming(channel: byte, arrival: Arrival)

  function ArrivalsOf(channels: nat -> byte, messages: seq<Message>, h: seq<Got>): (r: seq<Incoming>)
    requires Deliveries(messages, h)
    ensures |r| == |h|
    ensures forall k :: 0 <= k < |h| ==> r[k] == Incoming(channels(h[k].message), Arrival(BodyOf(messages, h[k]), h[k].at))
  {
    seq(|h|, k requires 0 <= k < |h| => Incoming(channels(h[k].message), Arrival(BodyOf(messages, h[k]), h[k].at)))
  }

  /**
   * What the client makes of packets in the order it gets them, with one reassembler for all its
   * channels: the payloads and the channels they come out on, up to the first fragment refused.
   */
  ghost function Dispatch(s: Reassembler, arrivals: seq<Incoming>): seq<(byte, seq<byte>)>
    requires Shaped(s)
    decreases |arrivals|
  {
    if arrivals == [] then []
    else
      var c, body, at := arrivals[0].channel, arrivals[0].arrival.body, arrivals[0].arrival.at;
      if !body.fragmented then [(c, body.bytes)] + Dispatch(s, arrivals[1..])
      else
        var (t, result) := PushAt(s, c, body.bytes, at);
        match result
        case Complete(bytes) => [(c, bytes)] + Dispatch(t, arrivals[1..])
        case Invalid => []
        case _ => Dispatch(t, arrivals[1..])
  }

  // ---- How far each message has come ----

  predicate Has(h: seq<Got>, j: nat, part: nat) { exists i :: 0 <= i < |h| && h[i].message == j && h[i].part == part }

  predicate Begun(h: seq<Got>, j: nat) { exists i :: 0 <= i < |h| && h[i].message == j }

  /** All packets of the message have arrived. */
  predicate Finished(messages: seq<Message>, h: seq<Got>, j: nat)
    requires Sent(messages) && j < |messages|
  {
    forall part :: 0 <= part < |Pieces(messages[j])| ==> Has(h, j, part)
  }

  /** Some fragments of the message have arrived, but not all. */
  predicate Open(messages: seq<Message>, h: seq<Got>, j: nat)
    requires Sent(messages) && j < |messages|
  {
    !FitsWhole(messages[j].payload) && Begun(h, j) && !Finished(messages, h, j)
  }

  function OpenSet(messages: seq<Message>, h: seq<Got>): (r: set<nat>)
    requires Sent(messages)
    ensures forall j <- r :: j < |messages|
  {
    set j: nat | j < |messages| && Open(messages, h, j)
  }

  /** When a packet of the message last arrived. */
  function LastAt(h: seq<Got>, j: nat): int {
    if h == [] then 0
    else if h[|h| - 1].message == j then h[|h| - 1].at
    else LastAt(h[..|h| - 1], j)
  }

  /** The bytes that have arrived of the fragments from `part` on. */
  function BytesFrom(payload: seq<byte>, h: seq<Got>, j: nat, part: nat): nat
    decreases Parts(|payload|) - part
  {
    if part >= Parts(|payload|) then 0
    else (if Has(h, j, part) then |Chunk(payload, part)| else 0) + BytesFrom(payload, h, j, part + 1)
  }

  function BytesEach(messages: seq<Message>, h: seq<Got>): (r: seq<nat>)
    requires Sent(messages)
    ensures |r| == |messages|
    ensures forall j :: 0 <= j < |r| ==> r[j] == if Open(messages, h, j) then BytesFrom(messages[j].payload, h, j, 0) else 0
  {
    seq(|messages|, j requires 0 <= j < |messages| => if Open(messages, h, j) then BytesFrom(messages[j].payload, h, j, 0) else 0)
  }

  function Total(s: seq<nat>): nat { if s == [] then 0 else s[0] + Total(s[1..]) }

  /** What the fragments of all open messages take up. */
  function OpenBytes(messages: seq<Message>, h: seq<Got>): nat
    requires Sent(messages)
  {
    Total(BytesEach(messages, h))
  }

  predicate Stale(messages: seq<Message>, h: seq<Got>, now: int)
    requires Sent(messages)
  {
    exists j <- OpenSet(messages, h) :: now - LastAt(h, j) > EXPIRY_MILLIS
  }

  /**
   * Exactly when the client refuses a fragment: some open message has not moved for ten seconds, or
   * the fragment's message is too long, or it would be one open message or some bytes too many.
   */
  predicate Refuses(messages: seq<Message>, h: seq<Got>, g: Got)
    requires Sent(messages) && Deliverable(messages, g)
  {
    var payload := messages[g.message].payload;
    && !FitsWhole(payload)
    && (|| Stale(messages, h, g.at)
        || Parts(|payload|) > MAX_PARTS
        || (g.message !in OpenSet(messages, h) && |OpenSet(messages, h)| >= MAX_ASSEMBLIES)
        || OpenBytes(messages, h) + |Chunk(payload, g.part)| > MAX_BYTES)
  }

  /** The channel a message is sent on and its id: what the reassembler knows it by. */
  function KeyOf(channels: nat -> byte, messages: seq<Message>, j: nat): Key
    requires j < |messages|
  {
    (channels(j), messages[j].id)
  }

  /** No other open message of its channel goes by the same id. */
  predicate Unambiguous(channels: nat -> byte, messages: seq<Message>, h: seq<Got>, g: Got)
    requires Sent(messages) && Deliverable(messages, g)
  {
    !FitsWhole(messages[g.message].payload) ==>
      forall j <- OpenSet(messages, h) :: j != g.message ==> KeyOf(channels, messages, j) != KeyOf(channels, messages, g.message)
  }

  predicate Clear(channels: nat -> byte, messages: seq<Message>, h: seq<Got>, rest: seq<Got>)
    requires Sent(messages) && forall i :: 0 <= i < |rest| ==> Deliverable(messages, rest[i])
    decreases |rest|
  {
    rest != [] ==> Unambiguous(channels, messages, h, rest[0]) && Clear(channels, messages, h + [rest[0]], rest[1..])
  }

  /** Messages whose ids all differ can always be told apart. */
  lemma {:induction false} DistinctIdsAreClear(channels: nat -> byte, messages: seq<Message>, h: seq<Got>, rest: seq<Got>)
    requires Sent(messages) && forall i :: 0 <= i < |rest| ==> Deliverable(messages, rest[i])
    requires forall i, j :: 0 <= i < j < |messages| ==> messages[i].id != messages[j].id
    ensures Clear(channels, messages, h, rest)
    decreases |rest|
  {
    if rest != [] {
      hide OpenSet, Deliverable;
      DistinctIdsAreClear(channels, messages, h + [rest[0]], rest[1..]);
    }
  }

  /** The messages that are completed by these packets, after those of `h`, up to the first that is refused. */
  function Came(messages: seq<Message>, h: seq<Got>, rest: seq<Got>): (r: seq<nat>)
    requires Sent(messages) && forall i :: 0 <= i < |rest| ==> Deliverable(messages, rest[i])
    ensures forall k :: 0 <= k < |r| ==> r[k] < |messages|
    decreases |rest|
  {
    if rest == [] || Refuses(messages, h, rest[0]) then []
    else
      var all := h + [rest[0]];
      (if Finished(messages, all, rest[0].message) then [rest[0].message] else []) + Came(messages, all, rest[1..])
  }

  // ---- One more packet ----

  lemma {:induction false} HasMore(h: seq<Got>, g: Got, j: nat, part: nat)
    ensures Has(h + [g], j, part) <==> Has(h, j, part) || (g.message == j && g.part == part)
  {
    var all := h + [g];
    assert all[|h|] == g;
    if Has(h, j, part) {
      var i :| 0 <= i < |h| && h[i].message == j && h[i].part == part;
      assert all[i].message == j && all[i].part == part;
    }
  }

  lemma {:induction false} BegunMore(h: seq<Got>, g: Got, j: nat)
    ensures Begun(h + [g], j) <==> Begun(h, j) || g.message == j
  {
    var all := h + [g];
    assert all[|h|] == g;
    if Begun(h, j) {
      var i :| 0 <= i < |h| && h[i].message == j;
      assert all[i].message == j;
    }
  }

  lemma {:induction false} LastAtMore(h: seq<Got>, g: Got, j: nat)
    ensures LastAt(h + [g], j) == if g.message == j then g.at else LastAt(h, j)
  {
    assert (h + [g])[..|h|] == h;
  }

  lemma {:induction false} BytesMore(payload: seq<byte>, h: seq<Got>, g: Got, j: nat, part: nat)
    requires g.message != j
    ensures BytesFrom(payload, h + [g], j, part) == BytesFrom(payload, h, j, part)
    decreases Parts(|payload|) - part
  {
    if part < Parts(|payload|) {
      hide Has, Chunk, Parts;
      HasMore(h, g, j, part);
      BytesMore(payload, h, g, j, part + 1);
    }
  }

  /** A packet changes how far its own message has come, and no other. */
  lemma {:induction false} OthersStay(messages: seq<Message>, h: seq<Got>, g: Got, j: nat)
    requires Sent(messages) && j < |messages| && g.message != j
    ensures Finished(messages, h + [g], j) == Finished(messages, h, j) && Open(messages, h + [g], j) == Open(messages, h, j)
    ensures BytesEach(messages, h + [g])[j] == BytesEach(messages, h)[j] && LastAt(h + [g], j) == LastAt(h, j)
  {
    hide Has, Begun, LastAt, Pieces;
    forall part: nat
      ensures Has(h + [g], j, part) == Has(h, j, part)
    {
      HasMore(h, g, j, part);
    }
    BegunMore(h, g, j);
    LastAtMore(h, g, j);
    BytesMore(messages[j].payload, h, g, j, 0);
  }

  lemma {:induction false} TotalUpdate(s: seq<nat>, j: nat, v: nat)
    requires j < |s|
    ensures Total(s[j := v]) == Total(s) - s[j] + v && s[j] <= Total(s)
  {
    if j == 0 {
      assert s[j := v][1..] == s[1..];
    } else {
      assert s[j := v][1..] == s[1..][j - 1 := v];
      TotalUpdate(s[1..], j - 1, v);
    }
  }

  lemma {:induction false} OpenBytesMore(messages: seq<Message>, h: seq<Got>, g: Got)
    requires Sent(messages) && g.message < |messages|
    ensures var j := g.message;
            && OpenBytes(messages, h + [g]) == OpenBytes(messages, h) - BytesEach(messages, h)[j] + BytesEach(messages, h + [g])[j]
            && BytesEach(messages, h)[j] <= OpenBytes(messages, h)
  {
    var before, now := BytesEach(messages, h), BytesEach(messages, h + [g]);
    forall i | 0 <= i < |messages| && i != g.message
      ensures now[i] == before[i]
    {
      OthersStay(messages, h, g, i);
    }
    hide BytesEach;
    TotalUpdate(before, g.message, now[g.message]);
    assert now == before[g.message := now[g.message]];
  }

  lemma {:induction false} OpenSetMore(messages: seq<Message>, h: seq<Got>, g: Got)
    requires Sent(messages) && g.message < |messages|
    ensures var j := g.message;
            OpenSet(messages, h + [g]) == if Open(messages, h + [g], j) then OpenSet(messages, h) + {j} else OpenSet(messages, h) - {j}
  {
    forall i: nat | i < |messages| && i != g.message
      ensures Open(messages, h + [g], i) == Open(messages, h, i)
    {
      OthersStay(messages, h, g, i);
    }
    hide Open;
  }

  // ---- The reassembler keeps exactly the open messages ----

  ghost predicate Tracked(e: Assembly, payload: seq<byte>, h: seq<Got>, j: nat) {
    && Partial(e, payload) && e.updatedAt == LastAt(h, j)
    && forall part :: 0 <= part < Parts(|payload|) ==> e.parts[part].Some? == Has(h, j, part)
  }

  ghost predicate AllTracked(entries: map<Key, Assembly>, channels: nat -> byte, messages: seq<Message>, h: seq<Got>)
    requires Sent(messages)
  {
    forall j <- OpenSet(messages, h) ::
      KeyOf(channels, messages, j) in entries && Tracked(entries[KeyOf(channels, messages, j)], messages[j].payload, h, j)
  }

  ghost predicate AllOpen(entries: map<Key, Assembly>, channels: nat -> byte, messages: seq<Message>, h: seq<Got>)
    requires Sent(messages)
  {
    forall key <- entries :: exists j <- OpenSet(messages, h) :: KeyOf(channels, messages, j) == key
  }

  ghost predicate Tracks(s: Reassembler, channels: nat -> byte, messages: seq<Message>, h: seq<Got>)
    requires Sent(messages)
  {
    && Shaped(s)
    && AllTracked(s.entries, channels, messages, h)
    && AllOpen(s.entries, channels, messages, h)
    && |s.entries| == |OpenSet(messages, h)|
    && s.bytes == OpenBytes(messages, h)
  }

  lemma {:induction false} NothingTracked(channels: nat -> byte, messages: seq<Message>)
    requires Sent(messages)
    ensures Tracks(EMPTY, channels, messages, [])
  {
    assert OpenSet(messages, []) == {};
    NoBytes(messages);
  }

  lemma {:induction false} NoBytes(messages: seq<Message>)
    requires Sent(messages)
    ensures OpenBytes(messages, []) == 0
  {
    TotalOfZeros(BytesEach(messages, []));
  }

  lemma {:induction false} TotalOfZeros(s: seq<nat>)
    requires forall j :: 0 <= j < |s| ==> s[j] == 0
    ensures Total(s) == 0
  {
    if s != [] {
      TotalOfZeros(s[1..]);
    }
  }

  /** The assembly's byte count is that of the fragments that arrived. */
  lemma {:induction false} TrackedBytes(parts: seq<Option<seq<byte>>>, payload: seq<byte>, h: seq<Got>, j: nat, part: nat)
    requires |parts| == Parts(|payload|) && part <= |parts|
    requires forall k :: 0 <= k < |parts| ==> parts[k] == if Has(h, j, k) then Some(Chunk(payload, k)) else None
    ensures Bytes(parts[part..]) == BytesFrom(payload, h, j, part)
    decreases |parts| - part
  {
    if part < |parts| {
      hide Has, Chunk, Parts;
      assert parts[part..][0] == parts[part] && parts[part..][1..] == parts[part + 1..];
      TrackedBytes(parts, payload, h, j, part + 1);
    }
  }

  lemma {:induction false} AssemblyBytes(e: Assembly, payload: seq<byte>, h: seq<Got>, j: nat)
    requires Tracked(e, payload, h, j)
    ensures e.bytes == BytesFrom(payload, h, j, 0)
  {
    hide Has, Chunk, LastAt;
    TrackedBytes(e.parts, payload, h, j, 0);
    assert e.parts[0..] == e.parts;
  }

  lemma {:induction false} OpenIsKeyed(s: Reassembler, channels: nat -> byte, messages: seq<Message>, h: seq<Got>, g: Got)
    requires Sent(messages) && Deliverable(messages, g) && !FitsWhole(messages[g.message].payload)
    requires Tracks(s, channels, messages, h) && Unambiguous(channels, messages, h, g)
    ensures KeyOf(channels, messages, g.message) in s.entries <==> g.message in OpenSet(messages, h)
  {
    hide OpenSet, Tracked;
  }

  lemma {:induction false} NewPacket(messages: seq<Message>, h: seq<Got>, g: Got)
    requires Deliveries(messages, h + [g])
    ensures Deliveries(messages, h) && Deliverable(messages, g) && !Has(h, g.message, g.part)
  {
    var all := h + [g];
    assert all[|h|] == g && forall i :: 0 <= i < |h| ==> all[i] == h[i];
  }

  /** A new fragment of a message that is not open is its first. */
  lemma {:induction false} FirstOfMessage(messages: seq<Message>, h: seq<Got>, g: Got, part: nat)
    requires Sent(messages) && Deliverable(messages, g) && !FitsWhole(messages[g.message].payload)
    requires !Has(h, g.message, g.part) && g.message !in OpenSet(messages, h)
    ensures !Has(h, g.message, part)
  {
    hide Pieces;
    assert !Begun(h, g.message);
  }

  /** The fragment is the last one missing exactly if all the others are there. */
  lemma {:induction false} LastMissing(parts: seq<Option<seq<byte>>>, part: nat, data: seq<byte>)
    requires part < |parts| && parts[part] == None
    ensures Count(parts) + 1 == |parts| <==> forall k :: 0 <= k < |parts| ==> k == part || parts[k].Some?
    ensures Count(parts) + 1 <= |parts|
  {
    var filled := parts[part := Some(data)];
    FillPart(parts, part, data);
    CountIsFull(filled);
    hide Count;
    if !Missing(filled) {
      forall k | 0 <= k < |parts|
        ensures k == part || parts[k].Some?
      {
        assert filled[k] in filled;
      }
    } else {
      var p :| p in filled && p.None?;
      var k :| 0 <= k < |filled| && filled[k] == p;
      assert k != part && !parts[k].Some?;
    }
  }

  lemma {:induction false} FinishesWhen(messages: seq<Message>, h: seq<Got>, g: Got)
    requires Sent(messages) && Deliverable(messages, g) && !Has(h, g.message, g.part)
    ensures Finished(messages, h + [g], g.message)
            <==> forall part :: 0 <= part < |Pieces(messages[g.message])| ==> part == g.part || Has(h, g.message, part)
  {
    hide Has, Pieces;
    forall part: nat
      ensures Has(h + [g], g.message, part) <==> Has(h, g.message, part) || g.part == part
    {
      HasMore(h, g, g.message, part);
    }
  }

  /** All the other parts of the message are there. */
  predicate AllOthers(h: seq<Got>, j: nat, part: nat, total: nat) {
    forall k :: 0 <= k < total ==> k == part || Has(h, j, k)
  }

  lemma {:induction false} OpenCount(e: Assembly, payload: seq<byte>, h: seq<Got>, j: nat, part: nat)
    requires Tracked(e, payload, h, j) && part < Parts(|payload|) && !Has(h, j, part)
    ensures Count(e.parts) + 1 < Parts(|payload|) <==> !AllOthers(h, j, part, Parts(|payload|))
  {
    hide Has, Count, LastAt, Parts, Chunk, Bytes;
    LastMissing(e.parts, part, []);
    assert AllOthers(h, j, part, |e.parts|) <==> forall k :: 0 <= k < |e.parts| ==> k == part || e.parts[k].Some?;
  }

  lemma {:induction false} FirstIsNotLast(messages: seq<Message>, h: seq<Got>, g: Got)
    requires Sent(messages) && Deliverable(messages, g) && !FitsWhole(messages[g.message].payload)
    requires !Has(h, g.message, g.part) && g.message !in OpenSet(messages, h)
    ensures Parts(|messages[g.message].payload|) >= 2
    ensures !AllOthers(h, g.message, g.part, Parts(|messages[g.message].payload|))
  {
    var other := if g.part == 0 then 1 else 0;
    FirstOfMessage(messages, h, g, other);
  }

  /** The reassembler's count tells whether the message is finished. */
  lemma {:induction false} CountTells(s: Reassembler, channels: nat -> byte, messages: seq<Message>, h: seq<Got>, g: Got)
    requires Sent(messages) && Deliverable(messages, g) && !FitsWhole(messages[g.message].payload)
    requires Tracks(s, channels, messages, h) && Unambiguous(channels, messages, h, g) && !Has(h, g.message, g.part)
    ensures var key, total := KeyOf(channels, messages, g.message), Parts(|messages[g.message].payload|);
            CountOf(s, key) + 1 < total <==> !Finished(messages, h + [g], g.message)
  {
    var j, payload, key := g.message, messages[g.message].payload, KeyOf(channels, messages, g.message);
    OpenIsKeyed(s, channels, messages, h, g);
    FinishesWhen(messages, h, g);
    assert Finished(messages, h + [g], j) <==> AllOthers(h, j, g.part, Parts(|payload|));
    hide Has, OpenSet, Count, Pieces, Finished, Tracked, AllOthers, Parts, OpenBytes, Unambiguous, AllOpen, Shaped, KeyOf;
    if j in OpenSet(messages, h) {
      assert Tracked(s.entries[key], payload, h, j);
      OpenCount(s.entries[key], payload, h, j, g.part);
    } else {
      FirstIsNotLast(messages, h, g);
    }
  }

  lemma {:induction false} SameElsewhere(s: map<Key, Assembly>, t: map<Key, Assembly>, key: Key)
    requires t - {key} == s - {key}
    ensures |t| + (if key in s then 1 else 0) == |s| + (if key in t then 1 else 0)
    ensures forall k :: k != key ==> (k in t <==> k in s)
    ensures forall k :: k != key && k in s ==> t[k] == s[k]
  {
    assert t.Keys - {key} == (t - {key}).Keys && s.Keys - {key} == (s - {key}).Keys;
    assert |t.Keys| == |t.Keys - {key}| + if key in t then 1 else 0;
    assert |s.Keys| == |s.Keys - {key}| + if key in s then 1 else 0;
    forall k | k != key
      ensures k in t <==> k in s
      ensures k in s ==> t[k] == s[k]
    {
      assert k in t - {key} <==> k in t;
      assert k in s - {key} <==> k in s;
      assert k in s ==> (t - {key})[k] == (s - {key})[k];
    }
  }

  /** The assembly of the fragment's own message, if it goes on. */
  lemma {:induction false} PlacedIsTracked(s: Reassembler, t: Reassembler, result: Result, channels: nat -> byte, messages: seq<Message>, h: seq<Got>, g: Got)
    requires Sent(messages) && Deliverable(messages, g) && !FitsWhole(messages[g.message].payload)
    requires Tracks(s, channels, messages, h) && Unambiguous(channels, messages, h, g) && !Has(h, g.message, g.part)
    requires Placed(s, t, result, KeyOf(channels, messages, g.message), messages[g.message].payload, g.part, g.at)
    requires !Finished(messages, h + [g], g.message)
    ensures var key := KeyOf(channels, messages, g.message);
            result == Pending && key in t.entries && Tracked(t.entries[key], messages[g.message].payload, h + [g], g.message)
  {
    var j, payload, key := g.message, messages[g.message].payload, KeyOf(channels, messages, g.message);
    CountTells(s, channels, messages, h, g);
    OpenIsKeyed(s, channels, messages, h, g);
    LastAtMore(h, g, j);
    forall part: nat | part < Parts(|payload|)
      ensures Arrived(t, key, part) == Has(h + [g], j, part)
    {
      HasMore(h, g, j, part);
      if part != g.part {
        if j in OpenSet(messages, h) {
          assert Tracked(s.entries[key], payload, h, j);
        } else {
          FirstOfMessage(messages, h, g, part);
        }
      }
    }
    hide Has, OpenSet, LastAt, CountOf, Count, Pieces;
  }

  /** A fragment adds a message to the open ones, or takes it away when it is the last. */
  lemma {:induction false} OpenAfter(messages: seq<Message>, h: seq<Got>, g: Got)
    requires Sent(messages) && Deliverable(messages, g) && !FitsWhole(messages[g.message].payload)
    ensures Open(messages, h + [g], g.message) == !Finished(messages, h + [g], g.message)
  {
    BegunMore(h, g, g.message);
  }

  lemma {:induction false} TrackedMore(e: Assembly, payload: seq<byte>, h: seq<Got>, g: Got, i: nat)
    requires Tracked(e, payload, h, i) && g.message != i
    ensures Tracked(e, payload, h + [g], i)
  {
    LastAtMore(h, g, i);
    hide Has, LastAt, Partial;
    forall part: nat
      ensures Has(h + [g], i, part) == Has(h, i, part)
    {
      HasMore(h, g, i, part);
    }
  }

  /** The other open messages are as they were. */
  lemma {:induction false} OthersTracked(s: Reassembler, t: Reassembler, channels: nat -> byte, messages: seq<Message>, h: seq<Got>, g: Got, i: nat)
    requires Sent(messages) && Deliverable(messages, g) && !FitsWhole(messages[g.message].payload)
    requires Tracks(s, channels, messages, h) && Unambiguous(channels, messages, h, g)
    requires t.entries - {KeyOf(channels, messages, g.message)} == s.entries - {KeyOf(channels, messages, g.message)}
    requires i in OpenSet(messages, h) && i != g.message
    ensures var key := KeyOf(channels, messages, i);
            key in t.entries && Tracked(t.entries[key], messages[i].payload, h + [g], i)
  {
    var key := KeyOf(channels, messages, i);
    hide Tracked, OpenSet, OpenBytes, Shaped, FitsWhole;
    TrackedMore(s.entries[key], messages[i].payload, h, g, i);
    SameElsewhere(s.entries, t.entries, KeyOf(channels, messages, g.message));
  }

  lemma {:induction false} AllTrackedAfter(s: Reassembler, t: Reassembler, result: Result, channels: nat -> byte, messages: seq<Message>, h: seq<Got>, g: Got)
    requires Sent(messages) && Deliverable(messages, g) && !FitsWhole(messages[g.message].payload)
    requires Tracks(s, channels, messages, h) && Unambiguous(channels, messages, h, g) && !Has(h, g.message, g.part)
    requires Placed(s, t, result, KeyOf(channels, messages, g.message), messages[g.message].payload, g.part, g.at)
    ensures AllTracked(t.entries, channels, messages, h + [g])
  {
    OpenAfter(messages, h, g);
    OpenSetMore(messages, h, g);
    assert t.entries - {KeyOf(channels, messages, g.message)} == s.entries - {KeyOf(channels, messages, g.message)};
    hide Tracked, OpenSet, Open, Finished, Has, Placed, Tracks;
    forall i <- OpenSet(messages, h + [g])
      ensures KeyOf(channels, messages, i) in t.entries && Tracked(t.entries[KeyOf(channels, messages, i)], messages[i].payload, h + [g], i)
    {
      if i == g.message {
        assert !Finished(messages, h + [g], i);
        PlacedIsTracked(s, t, result, channels, messages, h, g);
      } else {
        OthersTracked(s, t, channels, messages, h, g, i);
      }
    }
  }

  /** As many assemblies are left as messages are open. */
  lemma {:induction false} SizeAfter(entries: map<Key, Assembly>, after: map<Key, Assembly>, key: Key, open: set<nat>, openAfter: set<nat>, j: nat)
    requires after - {key} == entries - {key} && |entries| == |open| && (key in entries <==> j in open)
    requires openAfter == if key in after then open + {j} else open - {j}
    ensures |after| == |openAfter|
  {
    SameElsewhere(entries, after, key);
  }

  /** After a fragment that is not refused, the reassembler again keeps exactly the open messages. */
  lemma {:induction false} TracksAfter(s: Reassembler, t: Reassembler, result: Result, channels: nat -> byte, messages: seq<Message>, h: seq<Got>, g: Got)
    requires Sent(messages) && Deliverable(messages, g) && !FitsWhole(messages[g.message].payload)
    requires Tracks(s, channels, messages, h) && Unambiguous(channels, messages, h, g) && !Has(h, g.message, g.part) && Shaped(t)
    requires Placed(s, t, result, KeyOf(channels, messages, g.message), messages[g.message].payload, g.part, g.at)
    ensures Tracks(t, channels, messages, h + [g])
    ensures result == if Finished(messages, h + [g], g.message) then Complete(messages[g.message].payload) else Pending
  {
    var j, key, all := g.message, KeyOf(channels, messages, g.message), h + [g];
    CountTells(s, channels, messages, h, g);
    OpenIsKeyed(s, channels, messages, h, g);
    OpenAfter(messages, h, g);
    OpenSetMore(messages, h, g);
    BytesAfter(s, t, result, channels, messages, h, g);
    AllTrackedAfter(s, t, result, channels, messages, h, g);
    hide AllTracked, AllOpen, OpenSet, OpenBytes, Finished, Open, Partial, CountOf, BytesOf, Unambiguous, Has, Shaped;
    assert key in t.entries <==> !Finished(messages, all, j);
    SameElsewhere(s.entries, t.entries, key);
    SizeAfter(s.entries, t.entries, key, OpenSet(messages, h), OpenSet(messages, all), j);
    EntriesAreOpen(s, t, channels, messages, h, g);
  }

  /** Every assembly that is left belongs to an open message. */
  lemma {:induction false} EntriesAreOpen(s: Reassembler, t: Reassembler, channels: nat -> byte, messages: seq<Message>, h: seq<Got>, g: Got)
    requires Sent(messages) && Deliverable(messages, g)
    requires AllOpen(s.entries, channels, messages, h)
    requires forall k :: k != KeyOf(channels, messages, g.message) ==> (k in t.entries <==> k in s.entries)
    requires KeyOf(channels, messages, g.message) in t.entries ==> g.message in OpenSet(messages, h + [g])
    requires OpenSet(messages, h) - {g.message} <= OpenSet(messages, h + [g])
    ensures AllOpen(t.entries, channels, messages, h + [g])
  {
    hide OpenSet;
    forall key <- t.entries
      ensures exists j <- OpenSet(messages, h + [g]) :: KeyOf(channels, messages, j) == key
    {
      if key != KeyOf(channels, messages, g.message) {
        var j :| j in OpenSet(messages, h) && KeyOf(channels, messages, j) == key;
        assert j in OpenSet(messages, h + [g]);
      }
    }
  }

  lemma {:induction false} BytesAfter(s: Reassembler, t: Reassembler, result: Result, channels: nat -> byte, messages: seq<Message>, h: seq<Got>, g: Got)
    requires Sent(messages) && Deliverable(messages, g) && !FitsWhole(messages[g.message].payload)
    requires Tracks(s, channels, messages, h) && Unambiguous(channels, messages, h, g) && !Has(h, g.message, g.part)
    requires Placed(s, t, result, KeyOf(channels, messages, g.message), messages[g.message].payload, g.part, g.at)
    ensures t.bytes == OpenBytes(messages, h + [g])
  {
    var j, key, all := g.message, KeyOf(channels, messages, g.message), h + [g];
    OpenBytesMore(messages, h, g);
    OwnBytes(s, channels, messages, h, g);
    CountTells(s, channels, messages, h, g);
    OpenAfter(messages, h, g);
    if !Finished(messages, all, j) {
      PlacedIsTracked(s, t, result, channels, messages, h, g);
      AssemblyBytes(t.entries[key], messages[j].payload, all, j);
    }
    hide Tracked, OpenSet, OpenBytes, Finished, Open, BytesFrom, CountOf;
  }

  /** What the reassembler holds of the fragment's message is what has arrived of it. */
  lemma {:induction false} OwnBytes(s: Reassembler, channels: nat -> byte, messages: seq<Message>, h: seq<Got>, g: Got)
    requires Sent(messages) && Deliverable(messages, g) && !FitsWhole(messages[g.message].payload)
    requires Tracks(s, channels, messages, h) && Unambiguous(channels, messages, h, g)
    ensures BytesOf(s, KeyOf(channels, messages, g.message)) == BytesEach(messages, h)[g.message] <= s.bytes
  {
    var j, key := g.message, KeyOf(channels, messages, g.message);
    OpenIsKeyed(s, channels, messages, h, g);
    OpenBytesMore(messages, h, g);
    if j in OpenSet(messages, h) {
      assert Tracked(s.entries[key], messages[j].payload, h, j);
      AssemblyBytes(s.entries[key], messages[j].payload, h, j);
    }
    hide Tracked, OpenBytes, BytesFrom;
  }

  lemma {:induction false} StaleIsExpired(s: Reassembler, channels: nat -> byte, messages: seq<Message>, h: seq<Got>, now: int)
    requires Sent(messages) && Tracks(s, channels, messages, h)
    ensures Stale(messages, h, now) <==> Expired(s, now) != {}
  {
    hide OpenSet, Partial, Has, OpenBytes, LastAt;
    if Stale(messages, h, now) {
      var j :| j in OpenSet(messages, h) && now - LastAt(h, j) > EXPIRY_MILLIS;
      assert KeyOf(channels, messages, j) in Expired(s, now);
    }
    if Expired(s, now) != {} {
      var key :| key in Expired(s, now);
      var j :| j in OpenSet(messages, h) && KeyOf(channels, messages, j) == key;
      assert key == KeyOf(channels, messages, j);
    }
  }

  lemma {:induction false} PiecesAreFragments(messages: seq<Message>, g: Got)
    requires Sent(messages) && Deliverable(messages, g) && !FitsWhole(messages[g.message].payload)
    ensures var m := messages[g.message];
            && m.id < 65536 && 2 <= Parts(|m.payload|) < 65536 && g.part < Parts(|m.payload|)
            && BodyOf(messages, g) == Body(true, Fragment(m.payload, m.id, g.part))
  {
  }

  /** Too long, too many or too much: the fragment is refused. */
  lemma {:induction false} PushRefused(s: Reassembler, channel: byte, m: Message, part: nat, now: int)
    requires Shaped(s) && m.id < 65536 && 2 <= Parts(|m.payload|) < 65536 && part < Parts(|m.payload|)
    requires (channel, m.id) in s.entries ==> Partial(s.entries[(channel, m.id)], m.payload) && s.entries[(channel, m.id)].parts[part].None?
    requires || Parts(|m.payload|) > MAX_PARTS
             || ((channel, m.id) !in s.entries && |s.entries| >= MAX_ASSEMBLIES)
             || s.bytes + |Chunk(m.payload, part)| > MAX_BYTES
    ensures Push(s, channel, Fragment(m.payload, m.id, part), now).1 == Invalid
  {
    FragmentFields(m.payload, m.id, part);
    if (channel, m.id) in s.entries {
      PiecesAgree(s.entries[(channel, m.id)], m.payload, part);
    }
    hide Fragment, Chunk, Partial;
  }

  /** The client refuses a fragment exactly when the description says so, and otherwise keeps track of it. */
  lemma {:induction false} FragmentStep(s: Reassembler, channels: nat -> byte, messages: seq<Message>, h: seq<Got>, g: Got)
    requires Deliveries(messages, h + [g]) && g.message < |messages| && !FitsWhole(messages[g.message].payload)
    requires Tracks(s, channels, messages, h) && Deliverable(messages, g) && Unambiguous(channels, messages, h, g)
    ensures var (t, result) := PushAt(s, channels(g.message), BodyOf(messages, g).bytes, g.at);
            if Refuses(messages, h, g) then result == Invalid
            else
              && Tracks(t, channels, messages, h + [g])
              && result == if Finished(messages, h + [g], g.message) then Complete(messages[g.message].payload) else Pending
  {
    var m, key := messages[g.message], KeyOf(channels, messages, g.message);
    NewPacket(messages, h, g);
    PiecesAreFragments(messages, g);
    StaleIsExpired(s, channels, messages, h, g.at);
    OpenIsKeyed(s, channels, messages, h, g);
    OwnBytes(s, channels, messages, h, g);
    if key in s.entries {
      assert Tracked(s.entries[key], m.payload, h, g.message);
    }
    hide OpenSet, OpenBytes, Stale, Has, LastAt, Chunk, Fragment, Push, Placed, Finished, BodyOf, Pieces, Sweep, Deliveries, Unambiguous;
    if !Stale(messages, h, g.at) {
      if Refuses(messages, h, g) {
        PushRefused(s, channels(g.message), m, g.part, g.at);
      } else {
        PushPiece(s, channels(g.message), m.id, m.payload, g.part, g.at);
        var (t, result) := Push(s, channels(g.message), Fragment(m.payload, m.id, g.part), g.at);
        TracksAfter(s, t, result, channels, messages, h, g);
      }
    }
  }

  /** A message of one packet leaves the reassembler alone. */
  lemma {:induction false} WholeStep(s: Reassembler, channels: nat -> byte, messages: seq<Message>, h: seq<Got>, g: Got)
    requires Sent(messages) && Deliverable(messages, g) && FitsWhole(messages[g.message].payload)
    requires Tracks(s, channels, messages, h)
    ensures Tracks(s, channels, messages, h + [g]) && Finished(messages, h + [g], g.message)
    ensures BodyOf(messages, g) == Body(false, messages[g.message].payload)
  {
    WholeFinishes(messages, h, g);
    WholeIsNeverOpen(messages, h, g);
    assert g.message !in OpenSet(messages, h);
    hide OpenSet, OpenBytes, Tracked, Finished, BodyOf, Shaped, Pieces, FitsWhole;
    forall i <- OpenSet(messages, h)
      ensures Tracked(s.entries[KeyOf(channels, messages, i)], messages[i].payload, h + [g], i)
    {
      TrackedMore(s.entries[KeyOf(channels, messages, i)], messages[i].payload, h, g, i);
    }
  }

  lemma {:induction false} WholeFinishes(messages: seq<Message>, h: seq<Got>, g: Got)
    requires Sent(messages) && Deliverable(messages, g) && FitsWhole(messages[g.message].payload)
    ensures Finished(messages, h + [g], g.message) && BodyOf(messages, g) == Body(false, messages[g.message].payload)
  {
    WholePieces(messages[g.message]);
    HasMore(h, g, g.message, 0);
    hide Pieces, Has;
  }

  lemma {:induction false} WholeIsNeverOpen(messages: seq<Message>, h: seq<Got>, g: Got)
    requires Sent(messages) && Deliverable(messages, g) && FitsWhole(messages[g.message].payload)
    ensures OpenSet(messages, h + [g]) == OpenSet(messages, h) && OpenBytes(messages, h + [g]) == OpenBytes(messages, h)
  {
    OpenSetMore(messages, h, g);
    OpenBytesMore(messages, h, g);
    hide OpenBytes, Finished, Begun;
  }

  /** The payload of a message and the channel it was sent on. */
  function Delivery(channels: nat -> byte, messages: seq<Message>, j: nat): (byte, seq<byte>)
    requires j < |messages|
  {
    (channels(j), messages[j].payload)
  }

  function PayloadsAt(channels: nat -> byte, messages: seq<Message>, came: seq<nat>): (r: seq<(byte, seq<byte>)>)
    requires forall k :: 0 <= k < |came| ==> came[k] < |messages|
    ensures |r| == |came| && forall k :: 0 <= k < |r| ==> r[k] == Delivery(channels, messages, came[k])
  {
    seq(|came|, k requires 0 <= k < |came| => Delivery(channels, messages, came[k]))
  }

  lemma {:induction false} DeliveriesSplit(messages: seq<Message>, h: seq<Got>, rest: seq<Got>)
    requires Deliveries(messages, h + rest)
    ensures Deliveries(messages, rest)
    ensures rest != [] ==> h + [rest[0]] + rest[1..] == h + rest && Deliveries(messages, h + [rest[0]]) && Deliveries(messages, rest[1..])
  {
    var all := h + rest;
    forall a, b | 0 <= a <= b <= |all|
      ensures Deliveries(messages, all[a..b])
    {
      assert forall i :: 0 <= i < b - a ==> all[a..b][i] == all[a + i];
    }
    assert all[|h|..|all|] == rest;
    if rest != [] {
      assert all[0..|h| + 1] == h + [rest[0]];
      assert all[|h| + 1..|all|] == rest[1..];
    }
  }

  lemma {:induction false} ArrivalsTail(channels: nat -> byte, messages: seq<Message>, rest: seq<Got>)
    requires rest != [] && Deliveries(messages, rest) && Deliveries(messages, rest[1..])
    ensures ArrivalsOf(channels, messages, rest)[1..] == ArrivalsOf(channels, messages, rest[1..])
    ensures ArrivalsOf(channels, messages, rest)[0] == Incoming(channels(rest[0].message), Arrival(BodyOf(messages, rest[0]), rest[0].at))
  {
    hide BodyOf, Deliveries;
  }

  lemma {:induction false} DispatchWhole(s: Reassembler, arrivals: seq<Incoming>, payload: seq<byte>)
    requires Shaped(s) && arrivals != [] && arrivals[0].arrival.body == Body(false, payload)
    ensures Dispatch(s, arrivals) == [(arrivals[0].channel, payload)] + Dispatch(s, arrivals[1..])
  {
    hide PushAt;
  }

  lemma {:induction false} DispatchFragment(s: Reassembler, arrivals: seq<Incoming>)
    requires Shaped(s) && arrivals != [] && arrivals[0].arrival.body.fragmented
    ensures var c, a := arrivals[0].channel, arrivals[0].arrival;
            var (t, result) := PushAt(s, c, a.body.bytes, a.at);
            && Shaped(t)
            && Dispatch(s, arrivals) == if result.Invalid? then []
                                        else (if result.Complete? then [(c, result.bytes)] else []) + Dispatch(t, arrivals[1..])
  {
    hide PushAt;
    var c, a := arrivals[0].channel, arrivals[0].arrival;
    assert [] + Dispatch(PushAt(s, c, a.body.bytes, a.at).0, arrivals[1..]) == Dispatch(PushAt(s, c, a.body.bytes, a.at).0, arrivals[1..]);
  }

  lemma {:induction false} TracksIsShaped(s: Reassembler, channels: nat -> byte, messages: seq<Message>, h: seq<Got>)
    requires Sent(messages) && Tracks(s, channels, messages, h)
    ensures Shaped(s)
  {
  }

  /** One packet: what comes out for it, and the reassembler afterwards. */
  lemma {:induction false} DispatchStep(s: Reassembler, channels: nat -> byte, messages: seq<Message>, h: seq<Got>, rest: seq<Got>) returns (t: Reassembler)
    requires Deliveries(messages, h + rest) && Deliveries(messages, rest) && rest != [] && Deliveries(messages, rest[1..])
    requires Tracks(s, channels, messages, h) && Unambiguous(channels, messages, h, rest[0])
    ensures Shaped(s) && Shaped(t)
    ensures var arrivals, all, g := ArrivalsOf(channels, messages, rest), h + [rest[0]], rest[0];
            if Refuses(messages, h, g) then Dispatch(s, arrivals) == []
            else
              && Tracks(t, channels, messages, all)
              && Dispatch(s, arrivals)
                 == (if Finished(messages, all, g.message) then [Delivery(channels, messages, g.message)] else [])
                    + Dispatch(t, ArrivalsOf(channels, messages, rest[1..]))
  {
    var g, arrivals := rest[0], ArrivalsOf(channels, messages, rest);
    DeliveriesSplit(messages, h, rest);
    ArrivalsTail(channels, messages, rest);
    TracksIsShaped(s, channels, messages, h);
    assert FitsWhole(messages[g.message].payload) ==> !Refuses(messages, h, g);
    hide Tracks, Finished, ArrivalsOf, BodyOf, Deliveries, PushAt, Dispatch, Shaped, Refuses;
    if FitsWhole(messages[g.message].payload) {
      t := s;
      WholeStep(s, channels, messages, h, g);
      DispatchWhole(s, arrivals, messages[g.message].payload);
    } else {
      FragmentStep(s, channels, messages, h, g);
      PiecesAreFragments(messages, g);
      DispatchFragment(s, arrivals);
      t := PushAt(s, channels(g.message), BodyOf(messages, g).bytes, g.at).0;
    }
  }

  lemma {:induction false} PayloadsConcat(channels: nat -> byte, messages: seq<Message>, head: seq<nat>, tail: seq<nat>)
    requires |head| <= 1 && (forall k :: 0 <= k < |head| ==> head[k] < |messages|) && forall k :: 0 <= k < |tail| ==> tail[k] < |messages|
    ensures PayloadsAt(channels, messages, head + tail) == (if head == [] then [] else [Delivery(channels, messages, head[0])]) + PayloadsAt(channels, messages, tail)
  {
  }

  lemma {:induction false} GetsFrom(s: Reassembler, channels: nat -> byte, messages: seq<Message>, h: seq<Got>, rest: seq<Got>)
    requires Deliveries(messages, h + rest) && Deliveries(messages, rest)
    requires Tracks(s, channels, messages, h) && Clear(channels, messages, h, rest)
    ensures Dispatch(s, ArrivalsOf(channels, messages, rest)) == PayloadsAt(channels, messages, Came(messages, h, rest))
    decreases |rest|
  {
    if rest != [] {
      DeliveriesSplit(messages, h, rest);
      assert forall i :: 0 <= i < |rest| ==> Deliverable(messages, rest[i]);
      hide Refuses, Tracks, Deliveries, Unambiguous, Dispatch, ArrivalsOf, Finished, Deliverable, PayloadsAt;
      var t := DispatchStep(s, channels, messages, h, rest);
      if !Refuses(messages, h, rest[0]) {
        var all := h + [rest[0]];
        GetsFrom(t, channels, messages, all, rest[1..]);
        var head := if Finished(messages, all, rest[0].message) then [rest[0].message] else [];
        hide Came, Clear;
        PayloadsConcat(channels, messages, head, Came(messages, all, rest[1..]));
      }
    }
  }

  /**
   * Packets of many messages in any order of arrival, each at most once, with the ids of open
   * messages distinct: what the client makes of them is, up to the first fragment it refuses, the
   * messages completed, in the order of their last packets.
   */
  lemma {:induction false} ClientGets(channels: nat -> byte, messages: seq<Message>, h: seq<Got>)
    requires Deliveries(messages, h) && Clear(channels, messages, [], h)
    ensures Dispatch(EMPTY, ArrivalsOf(channels, messages, h)) == PayloadsAt(channels, messages, Came(messages, [], h))
  {
    NothingTracked(channels, messages);
    assert [] + h == h;
    hide Tracks, Deliveries, Clear, Dispatch, ArrivalsOf, Came;
    GetsFrom(EMPTY, channels, messages, [], h);
  }

  // ---- Each message once, in the order of the last packets ----

  lemma {:induction false} FinishedStays(messages: seq<Message>, h: seq<Got>, more: seq<Got>, j: nat)
    requires Sent(messages) && j < |messages| && Finished(messages, h, j)
    ensures Finished(messages, h + more, j)
  {
    hide Pieces;
    forall part | 0 <= part < |Pieces(messages[j])|
      ensures Has(h + more, j, part)
    {
      assert Has(h, j, part);
      var i :| 0 <= i < |h| && h[i].message == j && h[i].part == part;
      assert (h + more)[i] == h[i];
    }
  }

  lemma {:induction false} NotFinishedBefore(messages: seq<Message>, h: seq<Got>, g: Got)
    requires Deliveries(messages, h + [g])
    ensures g.message < |messages| && !Finished(messages, h, g.message)
  {
    NewPacket(messages, h, g);
    hide Has, Pieces;
  }

  /** At some moment a was complete and b was not. */
  ghost predicate Before(messages: seq<Message>, h: seq<Got>, rest: seq<Got>, a: nat, b: nat)
    requires Sent(messages) && a < |messages| && b < |messages|
  {
    exists n :: 0 <= n <= |rest| && Finished(messages, h + rest[..n], a) && !Finished(messages, h + rest[..n], b)
  }

  lemma {:induction false} BeforeTail(messages: seq<Message>, h: seq<Got>, rest: seq<Got>, a: nat, b: nat)
    requires Sent(messages) && a < |messages| && b < |messages| && rest != []
    requires Before(messages, h + [rest[0]], rest[1..], a, b)
    ensures Before(messages, h, rest, a, b)
  {
    hide Finished;
    var n :| 0 <= n <= |rest[1..]| && Finished(messages, h + [rest[0]] + rest[1..][..n], a) && !Finished(messages, h + [rest[0]] + rest[1..][..n], b);
    assert h + rest[..n + 1] == h + [rest[0]] + rest[1..][..n];
  }

  lemma {:induction false} BeforeNow(messages: seq<Message>, h: seq<Got>, rest: seq<Got>, a: nat, b: nat)
    requires Sent(messages) && a < |messages| && b < |messages| && rest != []
    requires Finished(messages, h + [rest[0]], a) && !Finished(messages, h + [rest[0]], b)
    ensures Before(messages, h, rest, a, b)
  {
    hide Finished;
    assert h + rest[..1] == h + [rest[0]];
  }

  /** These messages were not complete and now are. */
  ghost predicate NewlyDone(messages: seq<Message>, h: seq<Got>, all: seq<Got>, came: seq<nat>)
    requires Sent(messages) && forall k :: 0 <= k < |came| ==> came[k] < |messages|
  {
    forall k :: 0 <= k < |came| ==> !Finished(messages, h, came[k]) && Finished(messages, all, came[k])
  }

  /** Each comes once, those completed earlier first. */
  ghost predicate InTurn(messages: seq<Message>, h: seq<Got>, rest: seq<Got>, came: seq<nat>)
    requires Sent(messages) && forall k :: 0 <= k < |came| ==> came[k] < |messages|
  {
    forall a, b :: 0 <= a < b < |came| ==> came[a] != came[b] && Before(messages, h, rest, came[a], came[b])
  }

  lemma {:induction false} TailInTurn(messages: seq<Message>, h: seq<Got>, rest: seq<Got>, tail: seq<nat>)
    requires Sent(messages) && rest != [] && forall k :: 0 <= k < |tail| ==> tail[k] < |messages|
    requires NewlyDone(messages, h + [rest[0]], h + rest, tail) && InTurn(messages, h + [rest[0]], rest[1..], tail)
    ensures NewlyDone(messages, h, h + rest, tail) && InTurn(messages, h, rest, tail)
  {
    hide Finished, Before;
    forall k | 0 <= k < |tail|
      ensures !Finished(messages, h, tail[k])
    {
      if Finished(messages, h, tail[k]) {
        FinishedStays(messages, h, [rest[0]], tail[k]);
      }
    }
    forall a, b | 0 <= a < b < |tail|
      ensures Before(messages, h, rest, tail[a], tail[b])
    {
      BeforeTail(messages, h, rest, tail[a], tail[b]);
    }
  }

  lemma {:induction false} HeadInTurn(messages: seq<Message>, h: seq<Got>, rest: seq<Got>, c: nat, tail: seq<nat>)
    requires Sent(messages) && rest != [] && c < |messages| && forall k :: 0 <= k < |tail| ==> tail[k] < |messages|
    requires NewlyDone(messages, h, h + rest, tail) && InTurn(messages, h, rest, tail)
    requires NewlyDone(messages, h + [rest[0]], h + rest, tail)
    requires !Finished(messages, h, c) && Finished(messages, h + [rest[0]], c)
    ensures NewlyDone(messages, h, h + rest, [c] + tail) && InTurn(messages, h, rest, [c] + tail)
  {
    hide Finished, Before;
    assert h + [rest[0]] + rest[1..] == h + rest;
    FinishedStays(messages, h + [rest[0]], rest[1..], c);
    forall k | 0 <= k < |tail|
      ensures Before(messages, h, rest, c, tail[k]) && tail[k] != c
    {
      BeforeNow(messages, h, rest, c, tail[k]);
    }
  }

  /** What came was not complete before and is now; each message came once, those completed earlier first. */
  lemma {:induction false} CameInOrder(messages: seq<Message>, h: seq<Got>, rest: seq<Got>)
    requires Deliveries(messages, h + rest) && Deliveries(messages, rest)
    ensures NewlyDone(messages, h, h + rest, Came(messages, h, rest)) && InTurn(messages, h, rest, Came(messages, h, rest))
    decreases |rest|
  {
    if rest != [] && !Refuses(messages, h, rest[0]) {
      var g, all := rest[0], h + [rest[0]];
      DeliveriesSplit(messages, h, rest);
      NotFinishedBefore(messages, h, g);
      hide Refuses, Finished, Deliveries, NewlyDone, InTurn;
      CameInOrder(messages, all, rest[1..]);
      var tail := Came(messages, all, rest[1..]);
      assert all + rest[1..] == h + rest;
      TailInTurn(messages, h, rest, tail);
      if Finished(messages, all, g.message) {
        HeadInTurn(messages, h, rest, g.message, tail);
      } else {
        assert [] + tail == tail;
      }
    }
  }

  /** Nothing is refused. */
  predicate Accepted(messages: seq<Message>, h: seq<Got>, rest: seq<Got>)
    requires Sent(messages) && forall i :: 0 <= i < |rest| ==> Deliverable(messages, rest[i])
    decreases |rest|
  {
    rest != [] ==> !Refuses(messages, h, rest[0]) && Accepted(messages, h + [rest[0]], rest[1..])
  }

  /** If nothing is refused, every message completed comes. */
  lemma {:induction false} FinishedCame(messages: seq<Message>, h: seq<Got>, rest: seq<Got>, j: nat)
    requires Sent(messages) && (forall i :: 0 <= i < |rest| ==> Deliverable(messages, rest[i])) && Accepted(messages, h, rest)
    requires j < |messages| && !Finished(messages, h, j) && Finished(messages, h + rest, j)
    ensures j in Came(messages, h, rest)
    decreases |rest|
  {
    assert rest == [] ==> h + rest == h;
    if rest != [] {
      var g, all := rest[0], h + [rest[0]];
      assert all + rest[1..] == h + rest;
      hide Refuses, Finished;
      if Finished(messages, all, j) {
        if g.message != j {
          OthersStay(messages, h, g, j);
        }
      } else {
        FinishedCame(messages, all, rest[1..], j);
      }
    }
  }

  // ---- When it is a prefix ----

  /** Those of the messages that are on one channel. */
  function On(channels: nat -> byte, came: seq<nat>, c: byte, n: nat): (r: seq<nat>)
    requires forall k :: 0 <= k < |came| ==> came[k] < n
    ensures forall k :: 0 <= k < |r| ==> r[k] < n
  {
    if came == [] then []
    else (if channels(came[0]) == c then [came[0]] else []) + On(channels, came[1..], c, n)
  }

  /** The messages from t up to n that are sent on the channel, in that order. */
  function SentOn(channels: nat -> byte, n: nat, c: byte, t: nat): (r: seq<nat>)
    requires t <= n
    ensures forall k :: 0 <= k < |r| ==> t <= r[k] < n
    decreases n - t
  {
    if t == n then [] else (if channels(t) == c then [t] else []) + SentOn(channels, n, c, t + 1)
  }

  /** No message of the channel is complete before all those sent on it earlier. */
  predicate Orderly(channels: nat -> byte, messages: seq<Message>, h: seq<Got>, c: byte)
    requires Sent(messages)
  {
    forall i: nat, j: nat :: i < j < |messages| && channels(i) == channels(j) == c && Finished(messages, h, j) ==> Finished(messages, h, i)
  }

  /** At every moment until a fragment is refused. */
  predicate CompletesInOrder(channels: nat -> byte, messages: seq<Message>, h: seq<Got>, rest: seq<Got>, c: byte)
    requires Sent(messages) && forall i :: 0 <= i < |rest| ==> Deliverable(messages, rest[i])
    decreases |rest|
  {
    rest == [] || Refuses(messages, h, rest[0])
    || (Orderly(channels, messages, h + [rest[0]], c) && CompletesInOrder(channels, messages, h + [rest[0]], rest[1..], c))
  }

  /** Of the channel's messages those before t are complete, and no other. */
  predicate FinishedBelow(channels: nat -> byte, messages: seq<Message>, h: seq<Got>, c: byte, t: nat)
    requires Sent(messages)
  {
    t <= |messages| && forall j: nat :: j < |messages| && channels(j) == c ==> (Finished(messages, h, j) <==> j < t)
  }

  /** j is the first message of the channel from t on. */
  predicate NextOn(channels: nat -> byte, c: byte, t: nat, j: nat) {
    t <= j && channels(j) == c && forall i: nat :: t <= i < j ==> channels(i) != c
  }

  lemma {:induction false} SentOnFrom(channels: nat -> byte, n: nat, c: byte, t: nat, j: nat)
    requires t <= j < n && channels(j) == c
    ensures NextOn(channels, c, t, j) ==> SentOn(channels, n, c, t) == [j] + SentOn(channels, n, c, j + 1)
    ensures !NextOn(channels, c, t, j) ==> SentOn(channels, n, c, t) != [] && SentOn(channels, n, c, t)[0] != j
    decreases j - t
  {
    if t < j {
      SentOnFrom(channels, n, c, t + 1, j);
    }
  }

  lemma {:induction false} OneMoreFinished(channels: nat -> byte, messages: seq<Message>, h: seq<Got>, g: Got, c: byte, t: nat)
    requires Deliveries(messages, h + [g]) && FinishedBelow(channels, messages, h, c, t)
    ensures var j := g.message;
            && j < |messages|
            && var comes := Finished(messages, h + [g], j) && channels(j) == c;
               && (!comes ==> FinishedBelow(channels, messages, h + [g], c, t) && Orderly(channels, messages, h + [g], c))
               && (comes ==> t <= j)
               && (comes && NextOn(channels, c, t, j) ==> FinishedBelow(channels, messages, h + [g], c, j + 1) && Orderly(channels, messages, h + [g], c))
               && (comes && !NextOn(channels, c, t, j) ==> !Orderly(channels, messages, h + [g], c))
  {
    NotFinishedBefore(messages, h, g);
    hide Finished, Deliveries;
    forall j: nat | j < |messages| && j != g.message
      ensures Finished(messages, h + [g], j) == Finished(messages, h, j)
    {
      OthersStay(messages, h, g, j);
    }
    if Finished(messages, h + [g], g.message) && channels(g.message) == c && !NextOn(channels, c, t, g.message) {
      var i: nat :| t <= i < g.message && channels(i) == c;
      assert !Finished(messages, h + [g], i);
    }
  }

  lemma {:induction false} OnHead(channels: nat -> byte, j: nat, tail: seq<nat>, c: byte, n: nat)
    requires j < n && forall k :: 0 <= k < |tail| ==> tail[k] < n
    ensures On(channels, [j] + tail, c, n) == if channels(j) == c then [j] + On(channels, tail, c, n) else On(channels, tail, c, n)
  {
    assert ([j] + tail)[1..] == tail;
  }

  /** The first packet, if it is not refused. */
  lemma {:induction false} FirstPacket(channels: nat -> byte, messages: seq<Message>, h: seq<Got>, rest: seq<Got>, c: byte)
    requires Sent(messages) && rest != [] && (forall i :: 0 <= i < |rest| ==> Deliverable(messages, rest[i]))
    requires !Refuses(messages, h, rest[0])
    ensures var j, all := rest[0].message, h + [rest[0]];
            && On(channels, Came(messages, h, rest), c, |messages|)
               == (if Finished(messages, all, j) && channels(j) == c then [j] else []) + On(channels, Came(messages, all, rest[1..]), c, |messages|)
            && (CompletesInOrder(channels, messages, h, rest, c)
                <==> Orderly(channels, messages, all, c) && CompletesInOrder(channels, messages, all, rest[1..], c))
  {
    hide Refuses, Finished, Orderly, On;
    var j, all := rest[0].message, h + [rest[0]];
    OnHead(channels, j, Came(messages, all, rest[1..]), c, |messages|);
    assert [] + Came(messages, all, rest[1..]) == Came(messages, all, rest[1..]);
  }

  lemma {:induction false} PrefixHead(j: nat, s: seq<nat>, t: seq<nat>)
    ensures [j] + s <= [j] + t <==> s <= t
  {
    if [j] + s <= [j] + t {
      assert s == ([j] + s)[1..] && t == ([j] + t)[1..];
      assert forall k :: 0 <= k < |s| ==> s[k] == ([j] + s)[k + 1] == ([j] + t)[k + 1] == t[k];
    }
  }

  /** The message completed by the first packet is the next one on its channel, or comes out of turn. */
  lemma {:induction false} FirstComes(channels: nat -> byte, n: nat, c: byte, t: nat, j: nat, tail: seq<nat>)
    requires t <= j < n && channels(j) == c
    ensures [j] + tail <= SentOn(channels, n, c, t) <==> NextOn(channels, c, t, j) && tail <= SentOn(channels, n, c, j + 1)
  {
    SentOnFrom(channels, n, c, t, j);
    hide SentOn, NextOn;
    PrefixHead(j, tail, SentOn(channels, n, c, j + 1));
    assert ([j] + tail)[0] == j;
  }

  lemma {:induction false} InOrderFrom(channels: nat -> byte, messages: seq<Message>, h: seq<Got>, rest: seq<Got>, c: byte, t: nat)
    requires Deliveries(messages, h + rest) && Deliveries(messages, rest) && FinishedBelow(channels, messages, h, c, t)
    ensures On(channels, Came(messages, h, rest), c, |messages|) <= SentOn(channels, |messages|, c, t)
            <==> CompletesInOrder(channels, messages, h, rest, c)
    decreases |rest|
  {
    assert On(channels, [], c, |messages|) == [];
    if rest != [] && !Refuses(messages, h, rest[0]) {
      var j, all := rest[0].message, h + [rest[0]];
      DeliveriesSplit(messages, h, rest);
      assert forall i :: 0 <= i < |rest| ==> Deliverable(messages, rest[i]);
      hide Refuses, Finished, Deliveries, Deliverable, Orderly, NextOn, Came, SentOn, On, CompletesInOrder;
      OneMoreFinished(channels, messages, h, rest[0], c, t);
      FirstPacket(channels, messages, h, rest, c);
      hide FinishedBelow;
      var tail := On(channels, Came(messages, all, rest[1..]), c, |messages|);
      if Finished(messages, all, j) && channels(j) == c {
        FirstComes(channels, |messages|, c, t, j, tail);
        if NextOn(channels, c, t, j) {
          InOrderFrom(channels, messages, all, rest[1..], c, j + 1);
        }
      } else {
        assert [] + tail == tail;
        InOrderFrom(channels, messages, all, rest[1..], c, t);
      }
    }
  }

  lemma {:induction false} NothingFinished(messages: seq<Message>, j: nat)
    requires Sent(messages) && j < |messages|
    ensures !Finished(messages, [], j)
  {
    assert !Has([], j, 0) && |Pieces(messages[j])| > 0;
  }

  /**
   * On each channel the messages come in the order they were sent in, none left out, if and only if
   * they are completed in that order.
   */
  lemma {:induction false} InOrderIffCompletedInOrder(channels: nat -> byte, messages: seq<Message>, h: seq<Got>, c: byte)
    requires Deliveries(messages, h)
    ensures On(channels, Came(messages, [], h), c, |messages|) <= SentOn(channels, |messages|, c, 0)
            <==> CompletesInOrder(channels, messages, [], h, c)
  {
    assert [] + h == h;
    forall j: nat | j < |messages|
      ensures !Finished(messages, [], j)
    {
      NothingFinished(messages, j);
    }
    hide Deliveries, CompletesInOrder, Came, Finished;
    InOrderFrom(channels, messages, [], h, c, 0);
  }
}
