/**
 * Messages larger than a datagram: how the Rust client cuts them into fragments and how its
 * reassembler puts fragments back together, in whatever order they arrive.
 */
module Fragments {
  import opened Packets

  const INITIAL_MTU := 1024
  const FRAGMENT_SIZE := INITIAL_MTU - 10
  const MAX_FRAGMENT := 1432 - 10
  const MAX_PARTS := 128
  const MAX_ASSEMBLIES := 64
  const MAX_BYTES := 128 * MAX_FRAGMENT
  const EXPIRY_MILLIS := 10000

  function Parts(length: nat): nat { (length + FRAGMENT_SIZE - 1) / FRAGMENT_SIZE }

  /** Piece `part` of a payload: every piece is full except possibly the last. */
  function Chunk(payload: seq<byte>, part: nat): (r: seq<byte>)
    requires part < Parts(|payload|)
    ensures 0 < |r| <= FRAGMENT_SIZE
    ensures part + 1 < Parts(|payload|) ==> |r| == FRAGMENT_SIZE
  {
    var from := part * FRAGMENT_SIZE;
    payload[from..if from + FRAGMENT_SIZE < |payload| then from + FRAGMENT_SIZE else |payload|]
  }

  function Fragment(payload: seq<byte>, id: nat, part: nat): seq<byte>
    requires id < 65536 && part < Parts(|payload|) < 65536
  {
    Le16(id) + Le16(part) + Le16(Parts(|payload|)) + Chunk(payload, part)
  }

  predicate FitsWhole(payload: seq<byte>) { |payload| + HEADER_SIZE <= INITIAL_MTU }

  /** The packets of one message; None is the error for too many fragments. */
  function Split(payload: seq<byte>, id: nat): Option<seq<Body>>
    requires id < 65536
  {
    if FitsWhole(payload) then Some([Body(false, payload)])
    else if Parts(|payload|) > 65535 then None
    else Some(seq(Parts(|payload|), part requires 0 <= part < Parts(|payload|) => Body(true, Fragment(payload, id, part))))
  }

  /** The fragmentation loop of send_reliable_ordered. */
  method SplitLoop(payload: seq<byte>, id: nat) returns (packets: Option<seq<Body>>)
    requires id < 65536
    ensures packets == Split(payload, id)
  {
    if |payload| + HEADER_SIZE <= INITIAL_MTU {
      return Some([Body(false, payload)]);
    }
    var total := Parts(|payload|);
    if total > 65535 {
      return None;
    }
    var out: seq<Body> := [];
    for part := 0 to total
      invariant |out| == part
      invariant forall k :: 0 <= k < part ==> out[k] == Body(true, Fragment(payload, id, k))
    {
      var from := part * FRAGMENT_SIZE;
      var chunk := if from + FRAGMENT_SIZE < |payload| then payload[from..from + FRAGMENT_SIZE] else payload[from..];
      assert chunk == Chunk(payload, part);
      out := out + [Body(true, Le16(id) + Le16(part) + Le16(total) + chunk)];
    }
    packets := Some(out);
    assert out == Split(payload, id).value;
  }

  type Key = (byte, nat)

  datatype Assembly = Assembly(
    total: nat,
    fragmentSize: Option<nat>,
    parts: seq<Option<seq<byte>>>,
    received: nat,
    bytes: nat,
    updatedAt: int)

  datatype Reassembler = Reassembler(entries: map<Key, Assembly>, bytes: nat)

  datatype Result = Pending | Complete(bytes: seq<byte>) | Duplicate | Invalid

  const EMPTY := Reassembler(map[], 0)

  /** Every assembly has as many places as its message has parts. */
  predicate Shaped(s: Reassembler) {
    forall k <- s.entries :: |s.entries[k].parts| == s.entries[k].total
  }

  function Remove(s: Reassembler, key: Key): Reassembler {
    if key !in s.entries then s
    else
      var bytes := s.entries[key].bytes;
      Reassembler(s.entries - {key}, if s.bytes < bytes then 0 else s.bytes - bytes)
  }

  function Expired(s: Reassembler, now: int): set<Key> {
    set k | k in s.entries && now - s.entries[k].updatedAt > EXPIRY_MILLIS
  }

  predicate Missing(parts: seq<Option<seq<byte>>>) {
    exists p <- parts :: p.None?
  }

  function Join(parts: seq<Option<seq<byte>>>): seq<byte> {
    if parts == [] then []
    else if parts[0].None? then Join(parts[1..])
    else parts[0].value + Join(parts[1..])
  }

  /** A fragment that contradicts what its assembly already holds. */
  predicate Conflicts(e: Assembly, part: nat, total: nat, data: seq<byte>)
    requires part < total
  {
    || e.total != total
    || (part + 1 < total && e.fragmentSize.Some? && e.fragmentSize.value != |data|)
    || (part + 1 < total && e.fragmentSize.None? && total <= |e.parts| && e.parts[total - 1].Some?
        && |e.parts[total - 1].value| > |data|)
    || (part + 1 == total && e.fragmentSize.Some? && |data| > e.fragmentSize.value)
  }

  /** Store a piece that is neither conflicting nor a duplicate. */
  function Store(s: Reassembler, key: Key, part: nat, data: seq<byte>, now: int): (r: (Reassembler, Result))
    requires Shaped(s) && key in s.entries && part < s.entries[key].total
    ensures Shaped(r.0)
  {
    if s.bytes + |data| > MAX_BYTES then (Remove(s, key), Invalid)
    else
      var e := s.entries[key];
      var f := e.(fragmentSize := if part + 1 < e.total then Some(|data|) else e.fragmentSize,
                  parts := e.parts[part := Some(data)],
                  received := e.received + 1,
                  bytes := e.bytes + |data|,
                  updatedAt := now);
      var t := Reassembler(s.entries[key := f], s.bytes + |data|);
      if f.received != f.total then (t, Pending)
      else if Missing(f.parts) then (t, Invalid)
      else (Remove(t, key), Complete(Join(f.parts)))
  }

  /** ReliableFragmentReassembler::push without the expiry sweep; see PushAt. */
  function Push(s: Reassembler, channel: byte, payload: seq<byte>, now: int): (r: (Reassembler, Result))
    requires Shaped(s)
    ensures Shaped(r.0)
  {
    if |payload| <= 6 then (s, Invalid)
    else
      var key := (channel, FromLe16(payload[0], payload[1]));
      var part, total := FromLe16(payload[2], payload[3]), FromLe16(payload[4], payload[5]);
      var data := payload[6..];
      if !(2 <= total <= MAX_PARTS) || part >= total || |data| > MAX_FRAGMENT then (s, Invalid)
      else if key in s.entries then
        var e := s.entries[key];
        if Conflicts(e, part, total, data) then (Remove(s, key), Invalid)
        else if e.parts[part].None? then Store(s, key, part, data, now)
        else if e.parts[part].value == data then (s, Duplicate)
        else (Remove(s, key), Invalid)
      else if |s.entries| >= MAX_ASSEMBLIES then (s, Invalid)
      else
        var size := if part + 1 < total then Some(|data|) else None;
        var e := Assembly(total, size, seq(total, k => None), 0, 0, now);
        Store(s.(entries := s.entries[key := e]), key, part, data, now)
  }

  ghost function Sweep(s: Reassembler, keys: set<Key>): (r: Reassembler)
    requires Shaped(s)
    ensures Shaped(r)
    decreases keys
  {
    if keys == {} then s
    else
      var key :| key in keys;
      Sweep(Remove(s, key), keys - {key})
  }

  /** push: an expired assembly is dropped and reported, since its pieces were acknowledged. */
  ghost function PushAt(s: Reassembler, channel: byte, payload: seq<byte>, now: int): (r: (Reassembler, Result))
    requires Shaped(s)
    ensures Shaped(r.0)
  {
    if Expired(s, now) != {} then (Sweep(s, Expired(s, now)), Invalid) else Push(s, channel, payload, now)
  }

  // ---- Reassembly of one message ----

  function Count(parts: seq<Option<seq<byte>>>): nat {
    if parts == [] then 0 else (if parts[0].Some? then 1 else 0) + Count(parts[1..])
  }

  function Bytes(parts: seq<Option<seq<byte>>>): nat {
    if parts == [] then 0 else (if parts[0].Some? then |parts[0].value| else 0) + Bytes(parts[1..])
  }

  lemma {:induction false} FillPart(parts: seq<Option<seq<byte>>>, k: nat, data: seq<byte>)
    requires k < |parts| && parts[k] == None
    ensures Count(parts[k := Some(data)]) == Count(parts) + 1
    ensures Bytes(parts[k := Some(data)]) == Bytes(parts) + |data|
  {
    var filled := parts[k := Some(data)];
    if k == 0 {
      assert filled[1..] == parts[1..];
    } else {
      assert filled[1..] == parts[1..][k - 1 := Some(data)];
      FillPart(parts[1..], k - 1, data);
    }
  }

  /** All pieces are there exactly when the count says so. */
  lemma {:induction false} CountIsFull(parts: seq<Option<seq<byte>>>)
    ensures Count(parts) <= |parts|
    ensures Count(parts) == |parts| <==> !Missing(parts)
  {
    if parts != [] {
      CountIsFull(parts[1..]);
      assert parts[0] in parts;
      forall p <- parts[1..]
        ensures p in parts
      {
      }
      if Missing(parts) && parts[0].Some? {
        var p :| p in parts && p.None?;
        var k :| 0 <= k < |parts| && parts[k] == p;
        assert parts[1..][k - 1] == p;
      }
    }
  }

  lemma {:induction false} EmptyParts(n: nat)
    ensures Count(seq(n, k => None)) == 0 && Bytes(seq(n, k => None)) == 0
  {
    if n > 0 {
      var parts: seq<Option<seq<byte>>> := seq(n, k => None);
      assert parts[1..] == seq(n - 1, k => None);
      EmptyParts(n - 1);
    }
  }

  /** Pieces of a payload from `part` on. */
  function Chunks(payload: seq<byte>, part: nat): (r: seq<Option<seq<byte>>>)
    requires part <= Parts(|payload|)
    ensures |r| == Parts(|payload|) - part
    ensures forall k :: 0 <= k < |r| ==> r[k] == Some(Chunk(payload, part + k))
  {
    seq(Parts(|payload|) - part, k requires 0 <= k < Parts(|payload|) - part => Some(Chunk(payload, part + k)))
  }

  /** What is left of the payload after the first `part` pieces. */
  function Rest(payload: seq<byte>, part: nat): seq<byte> {
    payload[if part * FRAGMENT_SIZE < |payload| then part * FRAGMENT_SIZE else |payload|..]
  }

  lemma {:induction false} OneChunk(payload: seq<byte>, part: nat)
    requires part < Parts(|payload|)
    ensures Rest(payload, part) == Chunk(payload, part) + Rest(payload, part + 1)
  {
  }

  /** The pieces concatenate to the payload. */
  lemma {:induction false} JoinChunks(payload: seq<byte>, part: nat)
    requires part <= Parts(|payload|)
    ensures Join(Chunks(payload, part)) == Rest(payload, part)
    decreases Parts(|payload|) - part
  {
    if part < Parts(|payload|) {
      JoinChunks(payload, part + 1);
      OneChunk(payload, part);
      hide Chunk, Parts;
      assert Chunks(payload, part)[1..] == Chunks(payload, part + 1);
    }
  }

  /** What the assembly of `payload` looks like when some of its pieces have arrived. */
  ghost predicate Partial(e: Assembly, payload: seq<byte>) {
    && e.total == |e.parts| == Parts(|payload|)
    && (forall k :: 0 <= k < e.total ==> e.parts[k] == None || e.parts[k] == Some(Chunk(payload, k)))
    && e.received == Count(e.parts)
    && e.bytes == Bytes(e.parts)
    && (e.fragmentSize == None || e.fragmentSize == Some(FRAGMENT_SIZE))
  }

  predicate Arrived(s: Reassembler, key: Key, part: nat) {
    key in s.entries && part < |s.entries[key].parts| && s.entries[key].parts[part].Some?
  }

  predicate Room(s: Reassembler, key: Key, data: seq<byte>) {
    (key in s.entries || |s.entries| < MAX_ASSEMBLIES) && s.bytes + |data| <= MAX_BYTES
  }

  lemma {:induction false} FragmentFields(payload: seq<byte>, id: nat, part: nat)
    requires id < 65536 && part < Parts(|payload|) < 65536
    ensures var f := Fragment(payload, id, part);
            && |f| > 6 && FromLe16(f[0], f[1]) == id && FromLe16(f[2], f[3]) == part
            && FromLe16(f[4], f[5]) == Parts(|payload|) && f[6..] == Chunk(payload, part)
  {
  }

  /** A piece of the payload never conflicts with the other pieces of it. */
  lemma {:induction false} PiecesAgree(e: Assembly, payload: seq<byte>, part: nat)
    requires Partial(e, payload) && part < e.total
    ensures !Conflicts(e, part, e.total, Chunk(payload, part))
  {
  }

  lemma {:induction false} StorePiece(s: Reassembler, key: Key, payload: seq<byte>, part: nat, now: int)
    requires Shaped(s) && key in s.entries && Partial(s.entries[key], payload)
    requires part < Parts(|payload|) && s.entries[key].parts[part] == None
    requires s.bytes + |Chunk(payload, part)| <= MAX_BYTES && s.entries[key].bytes <= s.bytes
    ensures var (t, result) := Store(s, key, part, Chunk(payload, part), now);
            && t.entries - {key} == s.entries - {key}
            && if Count(s.entries[key].parts) + 1 < Parts(|payload|) then
                 && result == Pending && key in t.entries && Partial(t.entries[key], payload)
                 && t.entries[key].parts == s.entries[key].parts[part := Some(Chunk(payload, part))]
                 && t.entries[key].updatedAt == now
                 && t.bytes - t.entries[key].bytes == s.bytes - s.entries[key].bytes
               else
                 && result == Complete(payload) && key !in t.entries
                 && t.bytes == s.bytes - s.entries[key].bytes
  {
    var e := s.entries[key];
    var data := Chunk(payload, part);
    var filled := e.parts[part := Some(data)];
    FillPart(e.parts, part, data);
    CountIsFull(filled);
    var (t, result) := Store(s, key, part, data, now);
    if Count(filled) == |filled| {
      forall k | 0 <= k < |filled|
        ensures filled[k] == Some(Chunk(payload, k))
      {
        assert filled[k] in filled;
      }
      assert filled == Chunks(payload, 0);
      JoinChunks(payload, 0);
    }
    assert t.entries - {key} == s.entries - {key};
  }

  ghost function CountOf(s: Reassembler, key: Key): nat {
    if key in s.entries then Count(s.entries[key].parts) else 0
  }

  ghost function BytesOf(s: Reassembler, key: Key): nat {
    if key in s.entries then s.entries[key].bytes else 0
  }

  /** What pushing a new piece of `payload` must leave behind and report. */
  ghost predicate Placed(s: Reassembler, t: Reassembler, result: Result, key: Key, payload: seq<byte>, part: nat, now: int) {
    && t.entries - {key} == s.entries - {key}
    && t.bytes - BytesOf(t, key) == s.bytes - BytesOf(s, key)
    && if CountOf(s, key) + 1 < Parts(|payload|) then
         && result == Pending && key in t.entries && Partial(t.entries[key], payload)
         && CountOf(t, key) == CountOf(s, key) + 1 && Arrived(t, key, part)
         && (forall k :: k != part ==> Arrived(t, key, k) == Arrived(s, key, k))
         && t.entries[key].updatedAt == now
       else result == Complete(payload) && key !in t.entries
  }

  lemma {:induction false} PushKnown(s: Reassembler, channel: byte, id: nat, payload: seq<byte>, part: nat, now: int)
    requires Shaped(s) && id < 65536 && part < Parts(|payload|) && 2 <= Parts(|payload|) <= MAX_PARTS
    requires s.bytes + |Chunk(payload, part)| <= MAX_BYTES
    requires var key := (channel, id);
             key in s.entries && Partial(s.entries[key], payload) && s.entries[key].bytes <= s.bytes && !Arrived(s, key, part)
    ensures var (t, result) := Push(s, channel, Fragment(payload, id, part), now);
            Placed(s, t, result, (channel, id), payload, part, now)
  {
    FragmentFields(payload, id, part);
    var key := (channel, id);
    PiecesAgree(s.entries[key], payload, part);
    StorePiece(s, key, payload, part, now);
    FillPart(s.entries[key].parts, part, Chunk(payload, part));
    assert Push(s, channel, Fragment(payload, id, part), now) == Store(s, key, part, Chunk(payload, part), now);
  }

  /** The assembly opened by the first piece of a message to arrive. */
  function Opened(s: Reassembler, key: Key, payload: seq<byte>, part: nat, now: int): Reassembler
    requires part < Parts(|payload|)
  {
    var total := Parts(|payload|);
    var size := if part + 1 < total then Some(|Chunk(payload, part)|) else None;
    s.(entries := s.entries[key := Assembly(total, size, seq(total, k => None), 0, 0, now)])
  }

  lemma {:induction false} PushOpens(s: Reassembler, channel: byte, id: nat, payload: seq<byte>, part: nat, now: int)
    requires Shaped(s) && id < 65536 && part < Parts(|payload|) && 2 <= Parts(|payload|) <= MAX_PARTS
    requires (channel, id) !in s.entries && |s.entries| < MAX_ASSEMBLIES
    ensures var o := Opened(s, (channel, id), payload, part, now);
            Shaped(o) && Push(s, channel, Fragment(payload, id, part), now) == Store(o, (channel, id), part, Chunk(payload, part), now)
  {
  }

  lemma {:induction false} OpenedIsPartial(s: Reassembler, key: Key, payload: seq<byte>, part: nat, now: int)
    requires part < Parts(|payload|) && key !in s.entries
    ensures var o := Opened(s, key, payload, part, now);
            && key in o.entries && Partial(o.entries[key], payload) && o.entries[key].bytes == 0 && o.bytes == s.bytes
            && Count(o.entries[key].parts) == 0 && (forall k :: 0 <= k < Parts(|payload|) ==> o.entries[key].parts[k] == None)
            && o.entries - {key} == s.entries - {key}
  {
    EmptyParts(Parts(|payload|));
    assert Opened(s, key, payload, part, now).entries - {key} == s.entries - {key};
  }

  lemma {:induction false} PushNew(s: Reassembler, channel: byte, id: nat, payload: seq<byte>, part: nat, now: int)
    requires Shaped(s) && id < 65536 && part < Parts(|payload|) && 2 <= Parts(|payload|) <= MAX_PARTS
    requires s.bytes + |Chunk(payload, part)| <= MAX_BYTES
    requires (channel, id) !in s.entries && |s.entries| < MAX_ASSEMBLIES
    ensures var (t, result) := Push(s, channel, Fragment(payload, id, part), now);
            Placed(s, t, result, (channel, id), payload, part, now)
  {
    var key := (channel, id);
    var o := Opened(s, key, payload, part, now);
    hide Opened, Push, Store, Chunk, Fragment;
    PushOpens(s, channel, id, payload, part, now);
    OpenedIsPartial(s, key, payload, part, now);
    StorePiece(o, key, payload, part, now);
    FillPart(o.entries[key].parts, part, Chunk(payload, part));
  }

  /**
   * Reassembly in any order: a piece of a message, arriving whichever pieces came before it, is
   * recognised as a duplicate exactly if it is one; otherwise it is kept, and the last missing
   * piece completes the message with its exact payload. Other assemblies are not touched.
   */
  lemma {:induction false} PushPiece(s: Reassembler, channel: byte, id: nat, payload: seq<byte>, part: nat, now: int)
    requires Shaped(s) && id < 65536 && part < Parts(|payload|) && 2 <= Parts(|payload|) <= MAX_PARTS
    requires var key := (channel, id); key in s.entries ==> Partial(s.entries[key], payload) && s.entries[key].bytes <= s.bytes
    requires Room(s, (channel, id), Chunk(payload, part))
    ensures var (t, result) := Push(s, channel, Fragment(payload, id, part), now);
            if Arrived(s, (channel, id), part) then result == Duplicate && t == s
            else Placed(s, t, result, (channel, id), payload, part, now)
  {
    if (channel, id) !in s.entries {
      PushNew(s, channel, id, payload, part, now);
    } else if Arrived(s, (channel, id), part) {
      FragmentFields(payload, id, part);
      PiecesAgree(s.entries[(channel, id)], payload, part);
    } else {
      PushKnown(s, channel, id, payload, part, now);
    }
  }

  /** A message of more pieces than the reassembler allows is refused at its every fragment. */
  lemma {:induction false} OversizedIsRefused(s: Reassembler, channel: byte, id: nat, payload: seq<byte>, part: nat, now: int)
    requires Shaped(s)
    requires id < 65536 && part < Parts(|payload|) < 65536 && Parts(|payload|) > MAX_PARTS
    ensures Push(s, channel, Fragment(payload, id, part), now) == (s, Invalid)
  {
  }
}
