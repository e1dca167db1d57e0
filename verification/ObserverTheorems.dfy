/**
 * What holds of the observer over every interleaving of packets from every client, control
 * packets, releases and a poisoned mutex: each shown delta rests on a full frame of its own.
 */
module ObserverTheorems {
  import opened Packets
  import opened ObserverSequences
  import opened AvatarObservers
  import opened ObserverSessions

  datatype Event =
    | Avatars(key: Key, now: int, items: seq<(byte, seq<byte>)>)
    | Note(key: Key, now: int)
    | Release(key: Key)
    | Poison

  /** A frame shown, under which ownership. */
  datatype Entry = Entry(frame: Shown, key: Key, tenure: nat)

  /** `tenure` counts changes of ownership and `log` records what was shown; the code has neither. */
  datatype World = World(lease: Lease, peers: Peers, disabled: bool, tenure: nat, log: seq<Entry>)

  const START := World(VACANT, map[], false, 0, [])

  function Stamped(shown: seq<Shown>, key: Key, tenure: nat): (r: seq<Entry>)
    ensures |r| == |shown| && forall k :: 0 <= k < |r| ==> r[k] == Entry(shown[k], key, tenure)
  {
    seq(|shown|, k requires 0 <= k < |shown| => Entry(shown[k], key, tenure))
  }

  /** The claim that precedes every observation. */
  function ClaimStep(w: World, key: Key, now: int): (r: World)
    requires Shaped(w.peers)
    ensures Shaped(r.peers)
  {
    w.(lease := Claimed(w.lease, key, now),
       peers := if Displaces(w.lease, key, now) then Forget(w.peers) else w.peers,
       tenure := if w.lease.owner == Some(key) then w.tenure else w.tenure + 1)
  }

  function Step(codec: Codec, w: World, e: Event): (r: World)
    requires Shaped(w.peers)
    ensures Shaped(r.peers)
  {
    if w.disabled then w
    else match e
    case Avatars(key, now, items) =>
      if !Grants(w.lease, key, now) then w
      else
        var c := ClaimStep(w, key, now);
        var (peers, shown) := ObserveAll(codec, c.peers, items, now);
        c.(peers := peers, log := c.log + Stamped(shown, key, c.tenure))
    case Note(key, now) => w.(lease := Noted(w.lease, key, now))
    case Release(key) => w.(lease := Released(w.lease, key))
    case Poison => w.(disabled := true)
  }

  function Run(codec: Codec, events: seq<Event>): (w: World)
    ensures Shaped(w.peers)
  {
    if events == [] then START else Step(codec, Run(codec, events[..|events| - 1]), events[|events| - 1])
  }

  // ---- Deltas and their baselines ----

  /** The entries of one peer, in order. */
  function Of(log: seq<Entry>, peer: nat): (r: seq<Entry>)
    ensures forall x <- r :: x.frame.peer == peer
  {
    if log == [] then []
    else
      var rest := Of(log[..|log| - 1], peer);
      if log[|log| - 1].frame.peer == peer then rest + [log[|log| - 1]] else rest
  }

  /** From entry j on: one tenure, one owner, and never two seconds between successive frames. */
  predicate Unbroken(h: seq<Entry>, j: nat, k: nat)
    requires j <= k < |h|
  {
    && (forall i :: j <= i <= k ==> h[i].tenure == h[j].tenure && h[i].key == h[j].key)
    && (forall i :: j < i <= k ==> h[i].frame.at - h[i - 1].frame.at < RESYNC_AFTER)
  }

  /** Entry j is a full frame of this quality with this sequence and payload. */
  predicate IsBaseline(h: seq<Entry>, j: nat, quality: nat, b: Baseline) {
    && j < |h| && h[j].frame.from.None? && h[j].frame.quality == quality
    && Baseline(h[j].frame.sequence, h[j].frame.payload) == b
  }

  /** Entry k is a delta decoded against the full frame shown as entry j. */
  predicate Supports(codec: Codec, h: seq<Entry>, j: nat, k: nat) {
    && j < k < |h| && h[k].frame.from.Some?
    && IsBaseline(h, j, h[k].frame.quality, h[k].frame.from.value.baseline)
    && codec(h[j].frame.payload, h[k].frame.from.value.body, h[k].frame.quality) == Some(h[k].frame.payload)
    && Unbroken(h, j, k)
  }

  ghost predicate Supported(codec: Codec, h: seq<Entry>, k: nat) {
    exists j :: Supports(codec, h, j, k)
  }

  ghost predicate AllSupported(codec: Codec, h: seq<Entry>) {
    forall k :: 0 <= k < |h| && h[k].frame.from.Some? ==> Supported(codec, h, k)
  }

  /** The baseline in use was shown as entry j under the present ownership, unbroken since. */
  predicate Rests(h: seq<Entry>, j: nat, quality: nat, b: Baseline, owner: Option<Key>, tenure: nat) {
    && IsBaseline(h, j, quality, b) && Unbroken(h, j, |h| - 1)
    && h[j].tenure == tenure && (owner.Some? ==> h[j].key == owner.value)
  }

  ghost predicate RestsSomewhere(h: seq<Entry>, quality: nat, b: Baseline, owner: Option<Key>, tenure: nat) {
    exists j :: Rests(h, j, quality, b, owner, tenure)
  }

  /** What every step keeps of one peer; in particular a resyncing peer holds no baselines. */
  ghost predicate PeerSound(codec: Codec, p: Peer, h: seq<Entry>, owner: Option<Key>, tenure: nat) {
    && |p.baselines| == QUALITIES
    && (p.tracker.resyncing ==> p.baselines == NO_BASELINES)
    && (p.tracker.lastAppliedAt.Some? ==> h != [] && h[|h| - 1].frame.at == p.tracker.lastAppliedAt.value)
    && (forall q :: 0 <= q < QUALITIES && p.baselines[q].Some? ==>
          p.tracker.lastAppliedAt.Some? && RestsSomewhere(h, q, p.baselines[q].value, owner, tenure))
    && AllSupported(codec, h)
  }

  ghost predicate PeersSound(codec: Codec, peers: Peers, log: seq<Entry>, owner: Option<Key>, tenure: nat) {
    forall id: nat :: PeerSound(codec, PeerOf(peers, id), Of(log, id), owner, tenure)
  }

  ghost predicate Sound(codec: Codec, w: World) { PeersSound(codec, w.peers, w.log, w.lease.owner, w.tenure) }

  lemma {:induction false} JudgeKeeps(codec: Codec, p: Peer, h: seq<Entry>, key: Key, tenure: nat, sequence: byte, full: bool, now: int)
    requires PeerSound(codec, p, h, Some(key), tenure)
    ensures var (q, accepted) := Judge(p, sequence, full, now);
            && PeerSound(codec, q, h, Some(key), tenure) && q.tracker.lastAppliedAt == p.tracker.lastAppliedAt
            && (accepted && q.baselines != NO_BASELINES ==> now - p.tracker.lastAppliedAt.value < RESYNC_AFTER)
            && (accepted ==> !q.tracker.resyncing)
  {
  }

  lemma {:induction false} SupportSurvives(codec: Codec, h: seq<Entry>, x: Entry)
    requires AllSupported(codec, h)
    ensures forall k :: 0 <= k < |h| && h[k].frame.from.Some? ==> Supported(codec, h + [x], k)
  {
    forall k | 0 <= k < |h| && h[k].frame.from.Some?
      ensures Supported(codec, h + [x], k)
    {
      var j :| Supports(codec, h, j, k);
      assert Supports(codec, h + [x], j, k);
    }
  }

  /** Showing one more frame in time leaves a baseline where it rests. */
  lemma {:induction false} RestsOn(h: seq<Entry>, j: nat, quality: nat, b: Baseline, key: Key, tenure: nat, x: Entry)
    requires Rests(h, j, quality, b, Some(key), tenure)
    requires x.key == key && x.tenure == tenure && x.frame.at - h[|h| - 1].frame.at < RESYNC_AFTER
    ensures Rests(h + [x], j, quality, b, Some(key), tenure)
  {
  }

  lemma {:induction false} BaselinesRestOn(codec: Codec, p: Peer, h: seq<Entry>, key: Key, tenure: nat, x: Entry)
    requires PeerSound(codec, p, h, Some(key), tenure) && x.key == key && x.tenure == tenure
    requires p.baselines != NO_BASELINES ==> x.frame.at - p.tracker.lastAppliedAt.value < RESYNC_AFTER
    ensures forall q :: 0 <= q < QUALITIES && p.baselines[q].Some? ==>
              RestsSomewhere(h + [x], q, p.baselines[q].value, Some(key), tenure)
  {
    forall q | 0 <= q < QUALITIES && p.baselines[q].Some?
      ensures RestsSomewhere(h + [x], q, p.baselines[q].value, Some(key), tenure)
    {
      var j :| Rests(h, j, q, p.baselines[q].value, Some(key), tenure);
      RestsOn(h, j, q, p.baselines[q].value, key, tenure, x);
    }
  }

  function Extended(h: seq<Entry>, outcome: Outcome, key: Key, tenure: nat): seq<Entry> {
    if outcome.Displayed? then h + [Entry(outcome.frame, key, tenure)] else h
  }

  lemma {:induction false} FullKeeps(codec: Codec, p: Peer, h: seq<Entry>, key: Key, tenure: nat, x: Item, now: int)
    requires PeerSound(codec, p, h, Some(key), tenure) && x.Full? && x.quality < QUALITIES
    ensures var (q, outcome) := ShowFull(p, x, now);
            PeerSound(codec, q, Extended(h, outcome, key, tenure), Some(key), tenure)
  {
    JudgeKeeps(codec, p, h, key, tenure, x.sequence, true, now);
    var (q, accepted) := Judge(p, x.sequence, true, now);
    if accepted {
      var e := Entry(ShowFull(p, x, now).1.frame, key, tenure);
      SupportSurvives(codec, h, e);
      BaselinesRestOn(codec, q, h, key, tenure, e);
      assert Rests(h + [e], |h|, x.quality, Baseline(x.sequence, x.payload), Some(key), tenure);
    }
  }

  lemma {:induction false} DeltaKeeps(codec: Codec, p: Peer, h: seq<Entry>, key: Key, tenure: nat, x: Item, now: int)
    requires PeerSound(codec, p, h, Some(key), tenure) && x.Delta? && x.quality < QUALITIES
    ensures var (q, outcome) := ShowDelta(codec, p, x, now);
            PeerSound(codec, q, Extended(h, outcome, key, tenure), Some(key), tenure)
  {
    JudgeKeeps(codec, p, h, key, tenure, x.sequence, false, now);
    var (q, accepted) := Judge(p, x.sequence, false, now);
    var outcome := ShowDelta(codec, p, x, now).1;
    if outcome.Displayed? {
      var e := Entry(outcome.frame, key, tenure);
      SupportSurvives(codec, h, e);
      BaselinesRestOn(codec, q, h, key, tenure, e);
      var j :| Rests(h + [e], j, x.quality, q.baselines[x.quality].value, Some(key), tenure);
      assert Supports(codec, h + [e], j, |h|);
    }
  }

  lemma {:induction false} OfAppend(log: seq<Entry>, x: Entry, peer: nat)
    ensures Of(log + [x], peer) == if x.frame.peer == peer then Of(log, peer) + [x] else Of(log, peer)
  {
  }

  /** One item: only the peer it names is touched. */
  lemma {:induction false} ObserveKeeps(codec: Codec, peers: Peers, log: seq<Entry>, key: Key, tenure: nat, channel: byte, payload: seq<byte>, now: int)
    requires Shaped(peers)
    requires PeersSound(codec, peers, log, Some(key), tenure)
    ensures var (r, outcome) := Observe(codec, peers, channel, payload, now);
            PeersSound(codec, r, Extended(log, outcome, key, tenure), Some(key), tenure)
  {
    hide PeerSound;
    var x := Parse(channel, payload);
    if x.Full? {
      FullKeeps(codec, PeerOf(peers, x.peer), Of(log, x.peer), key, tenure, x, now);
    } else if x.Delta? {
      DeltaKeeps(codec, PeerOf(peers, x.peer), Of(log, x.peer), key, tenure, x, now);
    }
    var (r, outcome) := Observe(codec, peers, channel, payload, now);
    forall id: nat
      ensures PeerSound(codec, PeerOf(r, id), Of(Extended(log, outcome, key, tenure), id), Some(key), tenure)
    {
      if outcome.Displayed? {
        OfAppend(log, Entry(outcome.frame, key, tenure), id);
      }
    }
  }

  lemma {:induction false} ObserveAllKeeps(codec: Codec, peers: Peers, log: seq<Entry>, key: Key, tenure: nat, items: seq<(byte, seq<byte>)>, now: int)
    requires Shaped(peers)
    requires PeersSound(codec, peers, log, Some(key), tenure)
    ensures var (r, shown) := ObserveAll(codec, peers, items, now);
            PeersSound(codec, r, log + Stamped(shown, key, tenure), Some(key), tenure)
    decreases |items|
  {
    hide PeersSound, Observe, Of;
    var (r, shown) := ObserveAll(codec, peers, items, now);
    if items == [] {
      assert log + Stamped(shown, key, tenure) == log;
    } else {
      var front, item := items[..|items| - 1], items[|items| - 1];
      ObserveAllKeeps(codec, peers, log, key, tenure, front, now);
      var (r0, shown0) := ObserveAll(codec, peers, front, now);
      var log0 := log + Stamped(shown0, key, tenure);
      ObserveKeeps(codec, r0, log0, key, tenure, item.0, item.1, now);
      assert log + Stamped(shown, key, tenure) == Extended(log0, Observe(codec, r0, item.0, item.1, now).1, key, tenure);
    }
  }

  lemma {:induction false} ClaimKeeps(codec: Codec, w: World, key: Key, now: int)
    requires Shaped(w.peers) && Sound(codec, w) && Grants(w.lease, key, now)
    requires !w.lease.everOwned ==> w.peers == map[]
    requires w.lease.owner.Some? ==> w.lease.everOwned
    ensures Sound(codec, ClaimStep(w, key, now)) && ClaimStep(w, key, now).lease.owner == Some(key)
  {
  }

  /** Losing the owner weakens what is asked of a peer. */
  lemma {:induction false} ReleaseKeeps(codec: Codec, p: Peer, h: seq<Entry>, owner: Option<Key>, tenure: nat)
    requires PeerSound(codec, p, h, owner, tenure)
    ensures PeerSound(codec, p, h, None, tenure)
  {
    forall q | 0 <= q < QUALITIES && p.baselines[q].Some?
      ensures RestsSomewhere(h, q, p.baselines[q].value, None, tenure)
    {
      var j :| Rests(h, j, q, p.baselines[q].value, owner, tenure);
      assert Rests(h, j, q, p.baselines[q].value, None, tenure);
    }
  }

  ghost predicate Settled(codec: Codec, w: World) {
    && Shaped(w.peers) && Sound(codec, w)
    && (!w.lease.everOwned ==> w.peers == map[])
    && (w.lease.owner.Some? ==> w.lease.everOwned)
  }

  lemma {:induction false} StepKeepsSettled(codec: Codec, w: World, e: Event)
    requires Settled(codec, w)
    ensures Settled(codec, Step(codec, w, e))
  {
    hide PeerSound, ObserveAll;
    if !w.disabled {
      match e {
        case Avatars(key, now, items) =>
          if Grants(w.lease, key, now) {
            ClaimKeeps(codec, w, key, now);
            var c := ClaimStep(w, key, now);
            ObserveAllKeeps(codec, c.peers, c.log, key, c.tenure, items, now);
            assert PeersSound(codec, Step(codec, w, e).peers, Step(codec, w, e).log, Some(key), c.tenure);
          }
        case Note(_, _) =>
        case Release(key) =>
          forall id: nat
            ensures PeerSound(codec, PeerOf(w.peers, id), Of(w.log, id), None, w.tenure)
          {
            ReleaseKeeps(codec, PeerOf(w.peers, id), Of(w.log, id), w.lease.owner, w.tenure);
          }
        case Poison =>
      }
    }
  }

  lemma {:induction false} RunIsSettled(codec: Codec, events: seq<Event>)
    ensures Settled(codec, Run(codec, events))
    decreases |events|
  {
    if events != [] {
      hide Settled, Step;
      RunIsSettled(codec, events[..|events| - 1]);
      StepKeepsSettled(codec, Run(codec, events[..|events| - 1]), events[|events| - 1]);
    }
  }

  /**
   * In every run, every delta shown was decoded against a full frame of the same peer and
   * quality that was shown earlier under the same ownership, by the same client and generation,
   * with less than two seconds between any two successive frames of that peer since.
   */
  lemma {:induction false} DeltasRestOnOwnFrames(codec: Codec, events: seq<Event>, peer: nat, k: nat) returns (j: nat)
    requires var h := Of(Run(codec, events).log, peer); k < |h| && h[k].frame.from.Some?
    ensures Supports(codec, Of(Run(codec, events).log, peer), j, k)
  {
    RunIsSettled(codec, events);
    var w := Run(codec, events);
    assert PeerSound(codec, PeerOf(w.peers, peer), Of(w.log, peer), w.lease.owner, w.tenure);
    var i :| Supports(codec, Of(w.log, peer), i, k);
    j := i;
  }

  /** A peer waiting to be resynchronized holds no baseline in any reachable state. */
  lemma {:induction false} ResyncingHoldsNoBaselines(codec: Codec, events: seq<Event>, id: nat)
    requires PeerOf(Run(codec, events).peers, id).tracker.resyncing
    ensures PeerOf(Run(codec, events).peers, id).baselines == NO_BASELINES
  {
    RunIsSettled(codec, events);
    var w := Run(codec, events);
    assert PeerSound(codec, PeerOf(w.peers, id), Of(w.log, id), w.lease.owner, w.tenure);
  }

  // ---- The lease ----

  /** Event i is a packet of client k, taken while k is (or by it becomes) the owner. */
  predicate Heard(codec: Codec, events: seq<Event>, i: nat, key: Key) {
    && i < |events| && (events[i].Avatars? || events[i].Note?) && events[i].key == key
    && var w := Run(codec, events[..i + 1]); !w.disabled && w.lease.owner == Some(key)
  }

  lemma {:induction false} HeardIsRemembered(codec: Codec, events: seq<Event>, i: nat, key: Key)
    requires Heard(codec, events, i, key)
    ensures var last := Run(codec, events).lease.lastPacketAt; last.Some? && events[i].now <= last.value
    decreases |events|
  {
    var n := |events| - 1;
    hide ObserveAll, Forget;
    if i < n {
      assert events[..n][..i + 1] == events[..i + 1];
      HeardIsRemembered(codec, events[..n], i, key);
    } else {
      assert events[..i + 1] == events;
    }
  }

  /**
   * An owner loses the lease only by its own release, or to a packet of another client or
   * generation that comes six seconds or more after every packet heard from the owner.
   */
  lemma {:induction false} OwnerKeepsLease(codec: Codec, events: seq<Event>, e: Event, key: Key)
    requires var w := Run(codec, events); w.lease.owner == Some(key) && Step(codec, w, e).lease.owner != Some(key)
    ensures e == Release(key) || (e.Avatars? && e.key != key)
    ensures e.Avatars? ==> forall i: nat :: Heard(codec, events, i, key) ==> e.now - events[i].now >= LEASE_TIMEOUT
  {
    if e.Avatars? {
      forall i: nat | Heard(codec, events, i, key)
        ensures e.now - events[i].now >= LEASE_TIMEOUT
      {
        HeardIsRemembered(codec, events, i, key);
      }
    }
  }
}
