/**
 * Several packets in one datagram: the Merged and CompactMerged formats, the two parsers the
 * client has for each, and the encoding they accept.
 */
module Framing {
  import opened Packets

  const UNRELIABLE := 0
  const CHANNELED := 1
  const ACK := 2
  const MERGED := 12
  const COMPACT_MERGED := 18

  /** The packet property is the low five bits of the first byte. */
  function Property(first: byte): nat { first % 32 }

  predicate Nests(first: byte) { Property(first) == MERGED || Property(first) == COMPACT_MERGED }

  /** Entries in order, and whether the walk reached the end without complaint. */
  datatype Walk<T> = Walk(entries: seq<T>, complete: bool)

  // ---- CompactMerged ----

  datatype Entry = Plain(channel: nat, payload: seq<byte>) | Raw(packet: seq<byte>)

  predicate CarriesReliable(packet: seq<byte>) {
    |packet| >= 4 && (Property(packet[0]) == ACK || Property(packet[0]) == CHANNELED)
  }

  predicate Legal(e: Entry) {
    match e
    case Plain(channel, payload) => channel < 64 && |payload| < 65536
    case Raw(packet) => CarriesReliable(packet) && |packet| < 65536
  }

  function Content(e: Entry): seq<byte> { if e.Plain? then e.payload else e.packet }

  /** Tag and length of an entry; the length is long only when it must be. */
  function Head(raw: bool, channel: nat, n: nat): (r: seq<byte>)
    requires channel < 64 && n < 65536 && (raw ==> channel == 0)
    ensures |r| == if n > 255 then 3 else 2
  {
    [(if n > 255 then 128 else 0) + (if raw then 64 else channel)] + if n > 255 then Le16(n) else [n]
  }

  /** The one encoding of an entry. */
  function Encoded(e: Entry): (r: seq<byte>)
    requires Legal(e)
    ensures |r| >= 2
  {
    match e
    case Plain(channel, payload) => Head(false, channel, |payload|) + payload
    case Raw(packet) => Head(true, 0, |packet|) + packet
  }

  function EncodedAll(entries: seq<Entry>): seq<byte>
    requires forall e <- entries :: Legal(e)
  {
    if entries == [] then [] else Encoded(entries[0]) + EncodedAll(entries[1..])
  }

  /** What tag and length say: raw or not, the channel, where the content starts and its length. */
  datatype Header = Header(raw: bool, channel: nat, from: nat, length: nat)

  function ReadHeader(bytes: seq<byte>, pos: nat): (r: Option<Header>)
    requires pos < |bytes|
    ensures r.Some? ==> && pos < r.value.from <= |bytes| && r.value.channel < 64 && r.value.length < 65536
                        && (r.value.raw ==> r.value.channel == 0)
  {
    if |bytes| - pos < 2 then None
    else
      var raw, channel := bytes[pos] / 64 % 2 == 1, bytes[pos] % 64;
      if raw && channel != 0 then None
      else if bytes[pos] < 128 then Some(Header(raw, channel, pos + 2, bytes[pos + 1]))
      else if |bytes| - pos < 3 || FromLe16(bytes[pos + 1], bytes[pos + 2]) <= 255 then None
      else Some(Header(raw, channel, pos + 3, FromLe16(bytes[pos + 1], bytes[pos + 2])))
  }

  /** The entry at `pos` and where it ends, unless it is malformed. */
  function Decoded(bytes: seq<byte>, pos: nat): (r: Option<(Entry, nat)>)
    requires pos < |bytes|
    ensures r.Some? ==> pos < r.value.1 <= |bytes| && Legal(r.value.0)
  {
    var h := ReadHeader(bytes, pos);
    if h.None? || h.value.length > |bytes| - h.value.from then None
    else
      var end := h.value.from + h.value.length;
      var content := bytes[h.value.from..end];
      if !h.value.raw then Some((Plain(h.value.channel, content), end))
      else if CarriesReliable(content) then Some((Raw(content), end))
      else None
  }

  lemma {:induction false} ReadsHead(before: seq<byte>, raw: bool, channel: nat, n: nat, more: seq<byte>)
    requires channel < 64 && n < 65536 && (raw ==> channel == 0)
    ensures var head := Head(raw, channel, n);
            ReadHeader(before + head + more, |before|) == Some(Header(raw, channel, |before| + |head|, n))
  {
  }

  lemma {:induction false} HeadRead(bytes: seq<byte>, pos: nat)
    requires pos < |bytes| && ReadHeader(bytes, pos).Some?
    ensures var h := ReadHeader(bytes, pos).value; bytes[pos..h.from] == Head(h.raw, h.channel, h.length)
  {
  }

  /** What a parser makes of a datagram from `pos` on. */
  function CompactWalk(bytes: seq<byte>, pos: nat): Walk<Entry>
    requires pos <= |bytes|
    decreases |bytes| - pos
  {
    if pos == |bytes| then Walk([], true)
    else
      var first := Decoded(bytes, pos);
      if first.None? then Walk([], false)
      else
        var rest := CompactWalk(bytes, first.value.1);
        Walk([first.value.0] + rest.entries, rest.complete)
  }

  lemma {:induction false} SliceOf(before: seq<byte>, content: seq<byte>, more: seq<byte>)
    ensures (before + (content + more))[|before|..|before| + |content|] == content
  {
  }

  lemma {:induction false} Reassociate(a: seq<byte>, b: seq<byte>, c: seq<byte>, d: seq<byte>)
    ensures a + (b + c) + d == a + b + (c + d)
  {
  }

  lemma {:induction false} DecodesParts(before: seq<byte>, raw: bool, channel: nat, content: seq<byte>, more: seq<byte>)
    requires channel < 64 && |content| < 65536 && (raw ==> channel == 0 && CarriesReliable(content))
    ensures var head := Head(raw, channel, |content|);
            Decoded(before + (head + content) + more, |before|)
            == Some((if raw then Raw(content) else Plain(channel, content), |before| + |head| + |content|))
  {
    hide ReadHeader, Head, CarriesReliable;
    var head := Head(raw, channel, |content|);
    ReadsHead(before, raw, channel, |content|, content + more);
    Reassociate(before, head, content, more);
    SliceOf(before + head, content, more);
  }

  /** An entry decodes to itself, whatever surrounds it. */
  lemma {:induction false} DecodesEncoded(before: seq<byte>, e: Entry, more: seq<byte>)
    requires Legal(e)
    ensures Decoded(before + Encoded(e) + more, |before|) == Some((e, |before| + |Encoded(e)|))
  {
    DecodesParts(before, e.Raw?, if e.Plain? then e.channel else 0, Content(e), more);
    hide Decoded, Head;
  }

  /** Only the canonical encoding of an entry decodes to it. */
  lemma {:induction false} EncodesDecoded(bytes: seq<byte>, pos: nat)
    requires pos < |bytes| && Decoded(bytes, pos).Some?
    ensures var (e, end) := Decoded(bytes, pos).value; bytes[pos..end] == Encoded(e)
  {
    var end, h := Decoded(bytes, pos).value.1, ReadHeader(bytes, pos).value;
    HeadRead(bytes, pos);
    hide ReadHeader, Head;
    assert bytes[pos..end] == bytes[pos..h.from] + bytes[h.from..end];
  }

  /** Parsing a reference encoding returns the entries. */
  lemma {:induction false} CompactRoundTrip(before: seq<byte>, entries: seq<Entry>)
    requires forall e <- entries :: Legal(e)
    ensures CompactWalk(before + EncodedAll(entries), |before|) == Walk(entries, true)
    decreases |entries|
  {
    hide Decoded, Encoded, Legal;
    var bytes := before + EncodedAll(entries);
    if entries != [] {
      var e, rest := entries[0], entries[1..];
      assert bytes == before + Encoded(e) + EncodedAll(rest);
      DecodesEncoded(before, e, EncodedAll(rest));
      CompactRoundTrip(before + Encoded(e), rest);
    }
  }

  /**
   * Every datagram accepted to its end is the unique encoding of its entries; what is accepted of
   * a malformed one is the encoding of a proper prefix.
   */
  lemma {:induction false} CompactIsCanonical(bytes: seq<byte>, pos: nat)
    requires pos <= |bytes|
    ensures forall e <- CompactWalk(bytes, pos).entries :: Legal(e)
    ensures CompactWalk(bytes, pos).complete ==> bytes[pos..] == EncodedAll(CompactWalk(bytes, pos).entries)
    ensures !CompactWalk(bytes, pos).complete ==> EncodedAll(CompactWalk(bytes, pos).entries) < bytes[pos..]
    decreases |bytes| - pos
  {
    hide Decoded, Encoded, Legal;
    if pos < |bytes| && Decoded(bytes, pos).Some? {
      var (e, end) := Decoded(bytes, pos).value;
      EncodesDecoded(bytes, pos);
      CompactIsCanonical(bytes, end);
      assert bytes[pos..] == bytes[pos..end] + bytes[end..];
      assert ([e] + CompactWalk(bytes, end).entries)[1..] == CompactWalk(bytes, end).entries;
    }
  }

  // ---- Merged ----

  predicate LegalMerged(packet: seq<byte>) { 0 < |packet| < 65536 && !Nests(packet[0]) }

  function EncodedMerged(packets: seq<seq<byte>>): seq<byte>
    requires forall k :: 0 <= k < |packets| ==> LegalMerged(packets[k])
  {
    if packets == [] then []
    else
      assert LegalMerged(packets[0]);
      Le16(|packets[0]|) + packets[0] + EncodedMerged(packets[1..])
  }

  function DecodedMerged(bytes: seq<byte>, pos: nat): (r: Option<seq<byte>>)
    requires pos < |bytes|
    ensures r.Some? ==> LegalMerged(r.value) && pos + 2 + |r.value| <= |bytes|
  {
    if |bytes| - pos < 2 then None
    else
      var size := FromLe16(bytes[pos], bytes[pos + 1]);
      if size == 0 || pos + 2 + size > |bytes| || Nests(bytes[pos + 2]) then None else Some(bytes[pos + 2..pos + 2 + size])
  }

  function MergedWalk(bytes: seq<byte>, pos: nat): Walk<seq<byte>>
    requires pos <= |bytes|
    decreases |bytes| - pos
  {
    if pos == |bytes| then Walk([], true)
    else
      var first := DecodedMerged(bytes, pos);
      if first.None? then Walk([], false)
      else
        var rest := MergedWalk(bytes, pos + 2 + |first.value|);
        Walk([first.value] + rest.entries, rest.complete)
  }

  lemma {:induction false} DecodesMerged(before: seq<byte>, p: seq<byte>, more: seq<byte>)
    requires LegalMerged(p)
    ensures DecodedMerged(before + Le16(|p|) + p + more, |before|) == Some(p)
  {
  }

  lemma {:induction false} EncodesMerged(bytes: seq<byte>, pos: nat)
    requires pos < |bytes| && DecodedMerged(bytes, pos).Some?
    ensures var p := DecodedMerged(bytes, pos).value; bytes[pos..pos + 2 + |p|] == Le16(|p|) + p
  {
  }

  /** Parsing a reference encoding returns the packets. */
  lemma {:induction false} MergedRoundTrip(before: seq<byte>, packets: seq<seq<byte>>)
    requires forall k :: 0 <= k < |packets| ==> LegalMerged(packets[k])
    ensures MergedWalk(before + EncodedMerged(packets), |before|) == Walk(packets, true)
    decreases |packets|
  {
    hide DecodedMerged, LegalMerged, Le16;
    var bytes := before + EncodedMerged(packets);
    if packets != [] {
      var p, rest := packets[0], packets[1..];
      LegalMergedSize(p);
      assert bytes == before + Le16(|p|) + p + EncodedMerged(rest);
      DecodesMerged(before, p, EncodedMerged(rest));
      MergedRoundTrip(before + Le16(|p|) + p, rest);
    }
  }

  lemma {:induction false} LegalMergedSize(p: seq<byte>)
    requires LegalMerged(p)
    ensures 0 < |p| < 65536
  {
  }

  /** Every Merged datagram accepted to its end is the unique encoding of its packets. */
  lemma {:induction false} MergedIsCanonical(bytes: seq<byte>, pos: nat)
    requires pos <= |bytes|
    ensures forall k :: 0 <= k < |MergedWalk(bytes, pos).entries| ==> LegalMerged(MergedWalk(bytes, pos).entries[k])
    ensures MergedWalk(bytes, pos).complete ==> bytes[pos..] == EncodedMerged(MergedWalk(bytes, pos).entries)
    ensures !MergedWalk(bytes, pos).complete ==> EncodedMerged(MergedWalk(bytes, pos).entries) < bytes[pos..]
    decreases |bytes| - pos
  {
    hide DecodedMerged, LegalMerged, Le16;
    if pos < |bytes| && DecodedMerged(bytes, pos).Some? {
      var p := DecodedMerged(bytes, pos).value;
      var end := pos + 2 + |p|;
      EncodesMerged(bytes, pos);
      MergedIsCanonical(bytes, end);
      assert bytes[pos..] == bytes[pos..end] + bytes[end..];
      assert ([p] + MergedWalk(bytes, end).entries)[1..] == MergedWalk(bytes, end).entries;
    }
  }

  // ---- The parsers ----

  /** The entries up to and including the first whose dispatch, the k-th, returns an error. */
  ghost function UpToFailure<T(!new)>(entries: seq<T>, fails: (nat, T) -> bool): (r: Walk<T>)
    ensures r.entries <= entries
    ensures r.complete ==> r.entries == entries
  {
    if entries == [] then Walk([], true)
    else
      var last := |entries| - 1;
      var before := UpToFailure(entries[..last], fails);
      if before.complete then Walk(entries, !fails(last, entries[last])) else before
  }

  lemma {:induction false} UpToFailureAppend<T(!new)>(entries: seq<T>, x: T, fails: (nat, T) -> bool)
    requires UpToFailure(entries, fails).complete
    ensures UpToFailure(entries + [x], fails) == Walk(entries + [x], !fails(|entries|, x))
  {
    assert (entries + [x])[..|entries|] == entries;
  }

  /** A failure is final: later entries do not matter. */
  lemma {:induction false} UpToFailureStops<T(!new)>(entries: seq<T>, more: seq<T>, fails: (nat, T) -> bool)
    requires !UpToFailure(entries, fails).complete
    ensures UpToFailure(entries + more, fails) == UpToFailure(entries, fails)
    decreases |more|
  {
    if more == [] {
      assert entries + more == entries;
    } else {
      assert (entries + more)[..|entries + more| - 1] == entries + more[..|more| - 1];
      UpToFailureStops(entries, more[..|more| - 1], fails);
    }
  }

  /** The async parser gets through the whole datagram exactly when no dispatch fails. */
  lemma {:induction false} CompleteUnlessFailure<T(!new)>(entries: seq<T>, fails: (nat, T) -> bool)
    ensures UpToFailure(entries, fails).complete <==> forall k :: 0 <= k < |entries| ==> !fails(k, entries[k])
  {
    if entries != [] {
      CompleteUnlessFailure(entries[..|entries| - 1], fails);
    }
  }

  /** `done` and what is left from `pos` on make up the whole walk. */
  ghost predicate CompactSoFar(done: seq<Entry>, bytes: seq<byte>, pos: nat)
    requires 1 <= pos <= |bytes|
  {
    var whole, rest := CompactWalk(bytes, 1), CompactWalk(bytes, pos);
    whole.entries == done + rest.entries && whole.complete == rest.complete
  }

  lemma {:induction false} CompactOneMore(done: seq<Entry>, bytes: seq<byte>, pos: nat)
    requires 1 <= pos < |bytes| && CompactSoFar(done, bytes, pos)
    ensures Decoded(bytes, pos).None? ==> CompactWalk(bytes, 1) == Walk(done, false)
    ensures Decoded(bytes, pos).Some? ==> CompactSoFar(done + [Decoded(bytes, pos).value.0], bytes, Decoded(bytes, pos).value.1)
  {
  }

  lemma {:induction false} CompactAllDone(done: seq<Entry>, bytes: seq<byte>)
    requires |bytes| > 0
    ensures CompactSoFar([], bytes, 1)
    ensures CompactSoFar(done, bytes, |bytes|) ==> CompactWalk(bytes, 1) == Walk(done, true)
  {
  }

  /**
   * The CompactMerged arm of the async `handle_packet`. `fails` says which dispatches return an
   * error, by position and entry; an unreliable entry never does. Without a failure the walk is the reference walk; a
   * failure ends it early and unreported.
   */
  method AsyncCompact(bytes: seq<byte>, fails: (nat, Entry) -> bool) returns (dispatched: seq<Entry>, malformed: bool)
    requires |bytes| > 0 && forall k: nat, e: Entry :: e.Plain? ==> !fails(k, e)
    ensures dispatched == UpToFailure(CompactWalk(bytes, 1).entries, fails).entries
    ensures malformed <==> !CompactWalk(bytes, 1).complete && UpToFailure(CompactWalk(bytes, 1).entries, fails).complete
  {
    hide CompactWalk, CompactSoFar, UpToFailure;
    dispatched, malformed := [], false;
    var pos := 1;
    CompactAllDone(dispatched, bytes);
    NothingFails(fails);
    while pos < |bytes|
      invariant 1 <= pos <= |bytes| && CompactSoFar(dispatched, bytes, pos)
      invariant UpToFailure(dispatched, fails).complete && !malformed
    {
      CompactOneMore(dispatched, bytes, pos);
      ghost var next := Decoded(bytes, pos);
      if |bytes| - pos < 2 {
        return dispatched, true;
      }
      var tag := bytes[pos];
      pos := pos + 1;
      var isRaw, channel := tag / 64 % 2 == 1, tag % 64;
      if isRaw && channel != 0 {
        return dispatched, true;
      }
      var length;
      if tag >= 128 {
        if |bytes| - pos < 2 {
          return dispatched, true;
        }
        length := FromLe16(bytes[pos], bytes[pos + 1]);
        pos := pos + 2;
        if length <= 255 {
          return dispatched, true;
        }
      } else {
        length := bytes[pos];
        pos := pos + 1;
      }
      if length > |bytes| - pos {
        return dispatched, true;
      }
      var payload := bytes[pos..pos + length];
      pos := pos + length;
      if isRaw && (length < 4 || !(Property(payload[0]) == ACK || Property(payload[0]) == CHANNELED)) {
        return dispatched, true;
      }
      var entry := if isRaw then Raw(payload) else Plain(channel, payload);
      assert next == Some((entry, pos));
      UpToFailureAppend(dispatched, entry, fails);
      dispatched := dispatched + [entry];
      if isRaw && fails(|dispatched| - 1, entry) {
        StoppedAt(dispatched, bytes, pos, fails);
        return;
      }
    }
    CompactAllDone(dispatched, bytes);
  }

  lemma {:induction false} NothingFails<T(!new)>(fails: (nat, T) -> bool)
    ensures UpToFailure([], fails).complete
  {
  }

  lemma {:induction false} StoppedAt(dispatched: seq<Entry>, bytes: seq<byte>, pos: nat, fails: (nat, Entry) -> bool)
    requires 1 <= pos <= |bytes| && CompactSoFar(dispatched, bytes, pos)
    requires UpToFailure(dispatched, fails) == Walk(dispatched, false)
    ensures UpToFailure(CompactWalk(bytes, 1).entries, fails) == Walk(dispatched, false)
  {
    UpToFailureStops(dispatched, CompactWalk(bytes, pos).entries, fails);
  }

  /** The raw packets among the entries that the shared receiver keeps. */
  function Kept(entries: seq<Entry>, keep: seq<byte> -> bool): seq<seq<byte>> {
    if entries == [] then []
    else
      var last := entries[|entries| - 1];
      var rest := Kept(entries[..|entries| - 1], keep);
      if last.Raw? && keep(last.packet) then rest + [last.packet] else rest
  }

  lemma {:induction false} KeptNothing(keep: seq<byte> -> bool)
    ensures Kept([], keep) == []
  {
  }

  lemma {:induction false} KeptAppend(entries: seq<Entry>, e: Entry, keep: seq<byte> -> bool)
    ensures Kept(entries + [e], keep) == if e.Raw? && keep(e.packet) then Kept(entries, keep) + [e.packet] else Kept(entries, keep)
  {
  }

  /** `shared_receiver_process_compact`: all entries walked, the kept raw packets forwarded. */
  method SharedCompact(bytes: seq<byte>, keep: seq<byte> -> bool) returns (forward: seq<seq<byte>>, malformed: bool)
    requires |bytes| > 0
    ensures forward == Kept(CompactWalk(bytes, 1).entries, keep)
    ensures malformed <==> !CompactWalk(bytes, 1).complete
  {
    forward, malformed := [], false;
    ghost var walked: seq<Entry> := [];
    hide CompactWalk, CompactSoFar, Kept;
    KeptNothing(keep);
    var pos := 1;
    CompactAllDone(walked, bytes);
    while pos < |bytes|
      invariant 1 <= pos <= |bytes| && CompactSoFar(walked, bytes, pos)
      invariant forward == Kept(walked, keep) && !malformed
    {
      CompactOneMore(walked, bytes, pos);
      ghost var next := Decoded(bytes, pos);
      if |bytes| - pos < 2 {
        return forward, true;
      }
      var tag := bytes[pos];
      pos := pos + 1;
      var raw := tag / 64 % 2 == 1;
      if raw && tag % 64 != 0 {
        return forward, true;
      }
      var length;
      if tag >= 128 {
        if |bytes| - pos < 2 {
          return forward, true;
        }
        length := FromLe16(bytes[pos], bytes[pos + 1]);
        pos := pos + 2;
        if length <= 255 {
          return forward, true;
        }
      } else {
        length := bytes[pos];
        pos := pos + 1;
      }
      if length > |bytes| - pos {
        return forward, true;
      }
      var packet := bytes[pos..pos + length];
      pos := pos + length;
      if raw && (length < 4 || !(Property(packet[0]) == ACK || Property(packet[0]) == CHANNELED)) {
        return forward, true;
      }
      ghost var entry := if raw then Raw(packet) else Plain(tag % 64, packet);
      assert next == Some((entry, pos));
      KeptAppend(walked, entry, keep);
      walked := walked + [entry];
      if raw && keep(packet) {
        forward := forward + [packet];
      }
    }
    CompactAllDone(walked, bytes);
  }

  ghost predicate MergedSoFar(done: seq<seq<byte>>, bytes: seq<byte>, pos: nat)
    requires 1 <= pos <= |bytes|
  {
    var whole, rest := MergedWalk(bytes, 1), MergedWalk(bytes, pos);
    whole.entries == done + rest.entries && whole.complete == rest.complete
  }

  lemma {:induction false} MergedOneMore(done: seq<seq<byte>>, bytes: seq<byte>, pos: nat)
    requires 1 <= pos < |bytes| && MergedSoFar(done, bytes, pos)
    ensures var next := DecodedMerged(bytes, pos);
            && (next.None? ==> MergedWalk(bytes, 1) == Walk(done, false))
            && (next.Some? ==> MergedSoFar(done + [next.value], bytes, pos + 2 + |next.value|))
  {
  }

  lemma {:induction false} MergedAllDone(done: seq<seq<byte>>, bytes: seq<byte>)
    requires |bytes| > 0
    ensures MergedSoFar([], bytes, 1)
    ensures MergedSoFar(done, bytes, |bytes|) ==> MergedWalk(bytes, 1) == Walk(done, true)
  {
  }

  /** An unreliable entry with a channel byte is dispatched directly and cannot fail. */
  predicate Direct(packet: seq<byte>) { |packet| >= 2 && Property(packet[0]) == UNRELIABLE }

  /** The Merged arm of the async `handle_packet`; see AsyncCompact. */
  method AsyncMerged(bytes: seq<byte>, fails: (nat, seq<byte>) -> bool) returns (dispatched: seq<seq<byte>>, malformed: bool)
    requires |bytes| > 0 && forall k: nat, p: seq<byte> :: Direct(p) ==> !fails(k, p)
    ensures dispatched == UpToFailure(MergedWalk(bytes, 1).entries, fails).entries
    ensures malformed <==> !MergedWalk(bytes, 1).complete && UpToFailure(MergedWalk(bytes, 1).entries, fails).complete
  {
    hide MergedWalk, MergedSoFar, UpToFailure;
    dispatched, malformed := [], false;
    var pos := 1;
    MergedAllDone(dispatched, bytes);
    NothingFails(fails);
    while pos + 2 <= |bytes|
      invariant 1 <= pos <= |bytes| && MergedSoFar(dispatched, bytes, pos)
      invariant UpToFailure(dispatched, fails).complete
    {
      MergedOneMore(dispatched, bytes, pos);
      ghost var next := DecodedMerged(bytes, pos);
      var size := FromLe16(bytes[pos], bytes[pos + 1]);
      pos := pos + 2;
      if size == 0 || pos + size > |bytes| {
        return dispatched, true;
      }
      var entry := bytes[pos..pos + size];
      pos := pos + size;
      if Nests(entry[0]) {
        return dispatched, true;
      }
      assert next == Some(entry);
      UpToFailureAppend(dispatched, entry, fails);
      dispatched := dispatched + [entry];
      if !(|entry| >= 2 && Property(entry[0]) == UNRELIABLE) && fails(|dispatched| - 1, entry) {
        MergedStoppedAt(dispatched, bytes, pos, fails);
        return dispatched, false;
      }
    }
    if pos != |bytes| {
      MergedOneMore(dispatched, bytes, pos);
      malformed := true;
    } else {
      MergedAllDone(dispatched, bytes);
      malformed := false;
    }
  }

  lemma {:induction false} MergedStoppedAt(dispatched: seq<seq<byte>>, bytes: seq<byte>, pos: nat, fails: (nat, seq<byte>) -> bool)
    requires 1 <= pos <= |bytes| && MergedSoFar(dispatched, bytes, pos)
    requires UpToFailure(dispatched, fails) == Walk(dispatched, false)
    ensures UpToFailure(MergedWalk(bytes, 1).entries, fails) == Walk(dispatched, false)
  {
    UpToFailureStops(dispatched, MergedWalk(bytes, pos).entries, fails);
  }

  /** The packets the shared receiver keeps; unreliable ones are dropped unseen. */
  function KeptMerged(packets: seq<seq<byte>>, keep: seq<byte> -> bool): seq<seq<byte>> {
    if packets == [] then []
    else if KeepsMerged(packets[0], keep) then [packets[0]] + KeptMerged(packets[1..], keep)
    else KeptMerged(packets[1..], keep)
  }

  predicate KeepsMerged(p: seq<byte>, keep: seq<byte> -> bool) { |p| > 0 && Property(p[0]) != UNRELIABLE && keep(p) }

  /** `forward` and what will be kept from `pos` on make up all that is kept. */
  ghost predicate KeptSoFar(forward: seq<seq<byte>>, bytes: seq<byte>, pos: nat, keep: seq<byte> -> bool)
    requires 1 <= pos <= |bytes|
  {
    var whole, rest := MergedWalk(bytes, 1), MergedWalk(bytes, pos);
    whole.complete == rest.complete && KeptMerged(whole.entries, keep) == forward + KeptMerged(rest.entries, keep)
  }

  lemma {:induction false} KeptOneMore(forward: seq<seq<byte>>, bytes: seq<byte>, pos: nat, keep: seq<byte> -> bool)
    requires 1 <= pos < |bytes| && KeptSoFar(forward, bytes, pos, keep)
    ensures var next := DecodedMerged(bytes, pos);
            if next.None? then !MergedWalk(bytes, 1).complete && KeptMerged(MergedWalk(bytes, 1).entries, keep) == forward
            else KeptSoFar(if KeepsMerged(next.value, keep) then forward + [next.value] else forward, bytes, pos + 2 + |next.value|, keep)
  {
    hide DecodedMerged, KeepsMerged;
    var next := DecodedMerged(bytes, pos);
    if next.Some? {
      var rest := MergedWalk(bytes, pos + 2 + |next.value|).entries;
      assert ([next.value] + rest)[1..] == rest;
      assert forward + ([next.value] + KeptMerged(rest, keep)) == (forward + [next.value]) + KeptMerged(rest, keep);
    }
  }

  lemma {:induction false} KeptAll(forward: seq<seq<byte>>, bytes: seq<byte>, keep: seq<byte> -> bool)
    requires |bytes| > 0
    ensures KeptSoFar([], bytes, 1, keep)
    ensures KeptSoFar(forward, bytes, |bytes|, keep) ==> MergedWalk(bytes, 1).complete && KeptMerged(MergedWalk(bytes, 1).entries, keep) == forward
  {
  }

  /** `shared_receiver_process_merged`: all packets walked, the kept ones forwarded. */
  method SharedMerged(bytes: seq<byte>, keep: seq<byte> -> bool) returns (forward: seq<seq<byte>>, malformed: bool)
    requires |bytes| > 0
    ensures forward == KeptMerged(MergedWalk(bytes, 1).entries, keep)
    ensures malformed <==> !MergedWalk(bytes, 1).complete
  {
    hide MergedWalk, KeptSoFar, KeptMerged;
    forward, malformed := [], false;
    var pos := 1;
    KeptAll(forward, bytes, keep);
    while pos + 2 <= |bytes|
      invariant 1 <= pos <= |bytes| && KeptSoFar(forward, bytes, pos, keep)
    {
      KeptOneMore(forward, bytes, pos, keep);
      ghost var next := DecodedMerged(bytes, pos);
      var size := FromLe16(bytes[pos], bytes[pos + 1]);
      pos := pos + 2;
      if size == 0 || pos + size > |bytes| {
        return forward, true;
      }
      var packet := bytes[pos..pos + size];
      pos := pos + size;
      var property := packet[0] % 32;
      if Nests(packet[0]) {
        return forward, true;
      }
      assert next == Some(packet);
      if property != UNRELIABLE && keep(packet) {
        forward := forward + [packet];
      }
    }
    if pos != |bytes| {
      KeptOneMore(forward, bytes, pos, keep);
      malformed := true;
    } else {
      KeptAll(forward, bytes, keep);
    }
  }
}
