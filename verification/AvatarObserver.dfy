/**
 * The avatar observer: per peer, which frames are shown, which full frame of each quality may
 * serve as a baseline, and which deltas can be decoded.
 */
module AvatarObservers {
  import opened Channels
  import opened ObserverSequences
  import opened Packets
  import L = AvatarLayout

  const QUALITIES := L.HIGH + 1
  const POSITION_SIZE := 9

  datatype Baseline = Baseline(sequence: byte, payload: seq<byte>)

  datatype Peer = Peer(baselines: seq<Option<Baseline>>, lastSequence: Option<byte>, tracker: Tracker)

  const NO_BASELINES: seq<Option<Baseline>> := [None, None, None, None]
  const NEW_PEER := Peer(NO_BASELINES, None, UNTRACKED)

  type Peers = map<nat, Peer>

  /** `apply_delta`: baseline payload, delta body and quality to the new payload. */
  type Codec = (seq<byte>, seq<byte>, nat) -> Option<seq<byte>>

  // ---- Wire formats ----

  datatype Item =
    | Full(peer: nat, quality: nat, sequence: byte, payload: seq<byte>)
    | Delta(peer: nat, quality: nat, sequence: byte, base: byte, body: seq<byte>)
    | Uninteresting
    | Broken

  predicate SmallIdChannel(channel: byte) { PLAYER_AVATAR_VERY_LOW <= channel <= PLAYER_AVATAR_HIGH_ADDITIONAL }

  predicate LargeIdChannel(channel: byte) { PLAYER_AVATAR_VERY_LOW_LARGE <= channel <= PLAYER_AVATAR_HIGH_ADDITIONAL_LARGE }

  function ParseFull(quality: nat, large: bool, payload: seq<byte>): (r: Item)
    requires quality < QUALITIES
    ensures r.Broken? || (r.Full? && r.quality == quality && |r.payload| == L.PayloadBytes(quality))
  {
    var idSize := if large then 2 else 1;
    if |payload| < idSize + 2 + L.PayloadBytes(quality) then Broken
    else
      var peer := if large then FromLe16(payload[0], payload[1]) else payload[0];
      Full(peer, quality, payload[idSize + 1], payload[idSize + 2..idSize + 2 + L.PayloadBytes(quality)])
  }

  /** Flags, peer, interval, sequence, base sequence, body. */
  function ParseDelta(payload: seq<byte>): (r: Item)
    ensures r.Broken? || r.Uninteresting? || (r.Delta? && r.quality < QUALITIES && |r.body| > 0)
  {
    if payload == [] || payload[0] >= 0x80 then Uninteresting
    else
      var large := payload[0] / 8 % 2 == 1;
      var idSize := if large then 2 else 1;
      if |payload| <= idSize + 4 then Broken
      else
        var peer := if large then FromLe16(payload[1], payload[2]) else payload[1];
        Delta(peer, payload[0] % 4, payload[idSize + 2], payload[idSize + 3], payload[idSize + 4..])
  }

  function Parse(channel: byte, payload: seq<byte>): (r: Item)
    ensures r.Full? || r.Delta? ==> r.quality < QUALITIES
    ensures r.Full? ==> |r.payload| == L.PayloadBytes(r.quality)
  {
    if SmallIdChannel(channel) then ParseFull((channel - PLAYER_AVATAR_VERY_LOW) / 2, false, payload)
    else if LargeIdChannel(channel) then ParseFull((channel - PLAYER_AVATAR_VERY_LOW_LARGE) / 2, true, payload)
    else if channel == DELTA_AVATAR then ParseDelta(payload)
    else Uninteresting
  }

  // ---- What the observer does with an item ----

  /** How a shown delta was decoded. */
  datatype Decoded = Decoded(baseline: Baseline, body: seq<byte>)

  /** A frame put on show; `from` is None for a full frame. */
  datatype Shown = Shown(peer: nat, quality: nat, sequence: byte, from: Option<Decoded>, payload: seq<byte>, at: int)

  datatype Outcome = Malformed | Skipped | Displayed(frame: Shown)

  function PeerOf(peers: Peers, id: nat): Peer { if id in peers then peers[id] else NEW_PEER }

  /** `accept_sequence` on one peer: ambiguity after silence costs it all its baselines. */
  function Judge(p: Peer, sequence: byte, full: bool, now: int): (Peer, bool) {
    var (tracker, decision) := Decide(p.tracker, sequence, p.lastSequence, full, now);
    var drop := decision == ApplyAfterGap || decision == Pending(true);
    (p.(tracker := tracker, baselines := if drop then NO_BASELINES else p.baselines), Accepts(decision))
  }

  function Applied(p: Peer, sequence: byte, now: int): Peer {
    p.(lastSequence := Some(sequence), tracker := p.tracker.(lastAppliedAt := Some(now)))
  }

  function ShowFull(p: Peer, x: Item, now: int): (Peer, Outcome)
    requires x.Full? && x.quality < |p.baselines| == QUALITIES
  {
    var (q, accepted) := Judge(p, x.sequence, true, now);
    if !accepted then (q, Skipped)
    else
      var r := Applied(q, x.sequence, now);
      (r.(baselines := r.baselines[x.quality := Some(Baseline(x.sequence, x.payload))]),
       Displayed(Shown(x.peer, x.quality, x.sequence, None, x.payload, now)))
  }

  function ShowDelta(codec: Codec, p: Peer, x: Item, now: int): (Peer, Outcome)
    requires x.Delta? && x.quality < |p.baselines| == QUALITIES
  {
    var (q, accepted) := Judge(p, x.sequence, false, now);
    if !accepted then (q, Skipped)
    else
      var baseline := q.baselines[x.quality];
      if baseline.None? || baseline.value.sequence != x.base then (q, Skipped)
      else
        var decoded := codec(baseline.value.payload, x.body, x.quality);
        if decoded.None? || |decoded.value| < POSITION_SIZE then (q, Malformed)
        else
          (Applied(q, x.sequence, now),
           Displayed(Shown(x.peer, x.quality, x.sequence, Some(Decoded(baseline.value, x.body)), decoded.value, now)))
  }

  predicate Shaped(peers: Peers) { forall id <- peers :: |peers[id].baselines| == QUALITIES }

  function Observe(codec: Codec, peers: Peers, channel: byte, payload: seq<byte>, now: int): (r: (Peers, Outcome))
    requires Shaped(peers)
    ensures Shaped(r.0)
  {
    var x := Parse(channel, payload);
    match x
    case Uninteresting => (peers, Skipped)
    case Broken => (peers, Malformed)
    case Full(peer, _, _, _) =>
      var (p, outcome) := ShowFull(PeerOf(peers, peer), x, now);
      (peers[peer := p], outcome)
    case Delta(peer, _, _, _, _) =>
      var (p, outcome) := ShowDelta(codec, PeerOf(peers, peer), x, now);
      (peers[peer := p], outcome)
  }

  /** The items of one datagram in turn, and the frames they put on show. */
  function ObserveAll(codec: Codec, peers: Peers, items: seq<(byte, seq<byte>)>, now: int): (r: (Peers, seq<Shown>))
    requires Shaped(peers)
    ensures Shaped(r.0)
    decreases |items|
  {
    if items == [] then (peers, [])
    else
      var (rest, shown) := ObserveAll(codec, peers, items[..|items| - 1], now);
      var (p, outcome) := Observe(codec, rest, items[|items| - 1].0, items[|items| - 1].1, now);
      (p, if outcome.Displayed? then shown + [outcome.frame] else shown)
  }

  /** How many of the items do not parse or do not decode. */
  function MalformedIn(codec: Codec, peers: Peers, items: seq<(byte, seq<byte>)>, now: int): nat
    requires Shaped(peers)
    decreases |items|
  {
    if items == [] then 0
    else
      var front, item := items[..|items| - 1], items[|items| - 1];
      MalformedIn(codec, peers, front, now)
      + if Observe(codec, ObserveAll(codec, peers, front, now).0, item.0, item.1, now).1.Malformed? then 1 else 0
  }

  /** The items of a datagram; a bundle that fails to decode has none. */
  function ItemsOf(bundle: Option<seq<(byte, seq<byte>)>>): seq<(byte, seq<byte>)> { if bundle.Some? then bundle.value else [] }

  /** `mark_discontinuity`: nothing learnt under one owner is used under the next. */
  function Forget(peers: Peers): Peers {
    map id | id in peers :: NEW_PEER
  }

  /** The observer as the client updates it in place. */
  class AvatarObserver {
    var peers: Peers

    constructor ()
      ensures peers == map[]
    {
      peers := map[];
    }

    method MarkDiscontinuity()
      modifies this
      ensures peers == Forget(old(peers))
    {
      peers := map id | id in peers :: peers[id].(baselines := NO_BASELINES, lastSequence := None, tracker := UNTRACKED);
      assert peers == Forget(old(peers));
    }

    method AcceptSequence(id: nat, sequence: byte, full: bool, now: int) returns (accepted: bool)
      modifies this
      ensures var (p, ok) := Judge(PeerOf(old(peers), id), sequence, full, now);
              peers == old(peers)[id := p] && accepted == ok
    {
      var state := if id in peers then peers[id] else NEW_PEER;
      var (tracker, decision) := Decide(state.tracker, sequence, state.lastSequence, full, now);
      state := state.(tracker := tracker);
      match decision {
        case Apply => accepted := true;
        case ApplyAfterGap =>
          state := state.(baselines := NO_BASELINES);
          accepted := true;
        case Resynced => accepted := true;
        case Pending(began) =>
          if began {
            state := state.(baselines := NO_BASELINES);
          }
          accepted := false;
        case _ => accepted := false;
      }
      peers := peers[id := state];
    }

    method ObserveItem(codec: Codec, channel: byte, payload: seq<byte>, now: int) returns (wellFormed: bool, ghost outcome: Outcome)
      requires Shaped(peers)
      modifies this
      ensures (peers, outcome) == Observe(codec, old(peers), channel, payload, now)
      ensures wellFormed == !outcome.Malformed?
    {
      var x := Parse(channel, payload);
      if x.Delta? {
        wellFormed, outcome := ObserveDelta(codec, x, now);
        return;
      } else if x.Uninteresting? {
        return true, Skipped;
      } else if x.Broken? {
        return false, Malformed;
      }
      var accepted := AcceptSequence(x.peer, x.sequence, true, now);
      if !accepted {
        return true, Skipped;
      }
      var state := Applied(peers[x.peer], x.sequence, now);
      peers := peers[x.peer := state.(baselines := state.baselines[x.quality := Some(Baseline(x.sequence, x.payload))])];
      assert peers == old(peers)[x.peer := peers[x.peer]];
      return true, Displayed(Shown(x.peer, x.quality, x.sequence, None, x.payload, now));
    }

    method ObserveDelta(codec: Codec, x: Item, now: int) returns (wellFormed: bool, ghost outcome: Outcome)
      requires Shaped(peers) && x.Delta? && x.quality < QUALITIES
      modifies this
      ensures var (p, o) := ShowDelta(codec, PeerOf(old(peers), x.peer), x, now);
              peers == old(peers)[x.peer := p] && outcome == o
      ensures wellFormed == !outcome.Malformed?
    {
      var accepted := AcceptSequence(x.peer, x.sequence, false, now);
      if !accepted {
        return true, Skipped;
      }
      var state := peers[x.peer];
      var baseline := state.baselines[x.quality];
      if baseline.None? || baseline.value.sequence != x.base {
        return true, Skipped;
      }
      var decoded := codec(baseline.value.payload, x.body, x.quality);
      if decoded.None? || |decoded.value| < POSITION_SIZE {
        return false, Malformed;
      }
      peers := peers[x.peer := Applied(state, x.sequence, now)];
      return true, Displayed(Shown(x.peer, x.quality, x.sequence, Some(Decoded(baseline.value, x.body)), decoded.value, now));
    }

    /** `observe_channel`: a plain datagram is a bundle of one, and None is a bundle that fails to decode. */
    method ObserveBundle(codec: Codec, bundle: Option<seq<(byte, seq<byte>)>>, now: int) returns (malformed: nat, ghost shown: seq<Shown>)
      requires Shaped(peers)
      modifies this
      ensures Shaped(peers) && (peers, shown) == ObserveAll(codec, old(peers), ItemsOf(bundle), now)
      ensures malformed == if bundle.None? then 1 else MalformedIn(codec, old(peers), bundle.value, now)
    {
      malformed, shown := 0, [];
      if bundle.None? {
        return 1, [];
      }
      var items := bundle.value;
      for k := 0 to |items|
        invariant Shaped(peers) && (peers, shown) == ObserveAll(codec, old(peers), items[..k], now)
        invariant malformed == MalformedIn(codec, old(peers), items[..k], now)
      {
        var wellFormed, outcome := ObserveItem(codec, items[k].0, items[k].1, now);
        assert items[..k + 1][..k] == items[..k];
        if !wellFormed {
          malformed := malformed + 1;
        }
        shown := if outcome.Displayed? then shown + [outcome.frame] else shown;
      }
      assert items[..|items|] == items;
    }
  }
}
