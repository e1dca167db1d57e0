/**
 * Ogg pages (sections 5 and 6 of RFC 3533) as the voice tools write and read them: a multiplexer
 * with one packet per page and a demultiplexer for any division into pages.
 */
module Ogg {
  import opened Packets

  const CAPTURE: seq<byte> := [0x4F, 0x67, 0x67, 0x53]
  const HEADER_SIZE := 27
  const OPUS_HEAD: seq<byte> := [0x4F, 0x70, 0x75, 0x73, 0x48, 0x65, 0x61, 0x64]
  const OPUS_TAGS: seq<byte> := [0x4F, 0x70, 0x75, 0x73, 0x54, 0x61, 0x67, 0x73]

  predicate IsHeaderPacket(p: seq<byte>) { OPUS_HEAD <= p || OPUS_TAGS <= p }

  // ---- Packets, segments and pages ----

  /** A packet as segments: full ones of 255 bytes and a shorter last one, possibly empty. */
  function Segments(p: seq<byte>): (r: seq<seq<byte>>)
    ensures |r| == |p| / 255 + 1
  {
    if |p| < 255 then [p] else [p[..255]] + Segments(p[255..])
  }

  function AllSegments(packets: seq<seq<byte>>): seq<seq<byte>> {
    if packets == [] then [] else Segments(packets[0]) + AllSegments(packets[1..])
  }

  function Concat(parts: seq<seq<byte>>): seq<byte> {
    if parts == [] then [] else parts[0] + Concat(parts[1..])
  }

  predicate Lengths(lacing: seq<byte>, segments: seq<seq<byte>>) {
    |lacing| == |segments| && forall k :: 0 <= k < |segments| ==> lacing[k] == |segments[k]|
  }

  /** A page; `header` is everything between the capture pattern and the segment count. */
  datatype Page = Page(header: seq<byte>, segments: seq<seq<byte>>)

  predicate LegalPage(g: Page) {
    |g.header| == 22 && |g.segments| < 256 && forall k :: 0 <= k < |g.segments| ==> |g.segments[k]| < 256
  }

  function Lacing(segments: seq<seq<byte>>): (r: seq<byte>)
    requires forall k :: 0 <= k < |segments| ==> |segments[k]| < 256
    ensures Lengths(r, segments)
  {
    seq(|segments|, k requires 0 <= k < |segments| => |segments[k]|)
  }

  function PageBytes(g: Page): seq<byte>
    requires LegalPage(g)
  {
    CAPTURE + g.header + [|g.segments|] + Lacing(g.segments) + Concat(g.segments)
  }

  function FileBytes(pages: seq<Page>): seq<byte>
    requires forall g <- pages :: LegalPage(g)
  {
    if pages == [] then [] else PageBytes(pages[0]) + FileBytes(pages[1..])
  }

  function PageSegments(pages: seq<Page>): seq<seq<byte>> {
    if pages == [] then [] else pages[0].segments + PageSegments(pages[1..])
  }

  // ---- Demultiplexing ----

  /** Bytes of the packet under way, and the packets completed. */
  datatype Reader = Reader(pending: seq<byte>, packets: seq<seq<byte>>)

  function Emit(packets: seq<seq<byte>>, p: seq<byte>): seq<seq<byte>> {
    if IsHeaderPacket(p) then packets else packets + [p]
  }

  function Absorb(r: Reader, segments: seq<seq<byte>>): Reader
    decreases |segments|
  {
    if segments == [] then r
    else
      var pending := r.pending + segments[0];
      var next := if |segments[0]| < 255 then Reader([], Emit(r.packets, pending)) else Reader(pending, r.packets);
      Absorb(next, segments[1..])
  }

  /** The segments that the lacing cuts out of `data` at `at`, if they are all there. */
  function Cut(data: seq<byte>, at: nat, lacing: seq<byte>): (r: Option<seq<seq<byte>>>)
    requires at <= |data|
    ensures r.Some? ==> Lengths(lacing, r.value) && at + |Concat(r.value)| <= |data|
                        && data[at..at + |Concat(r.value)|] == Concat(r.value)
    decreases |lacing|
  {
    if lacing == [] then Some([])
    else if at + lacing[0] > |data| then None
    else
      var first := data[at..at + lacing[0]];
      var rest := Cut(data, at + lacing[0], lacing[1..]);
      if rest.None? then None else Some([first] + rest.value)
  }

  /** The segments of the page at `offset` and where the page ends. */
  function ReadPage(data: seq<byte>, offset: nat): (r: Option<(seq<seq<byte>>, nat)>)
    requires offset < |data|
    ensures r.Some? ==> offset < r.value.1 <= |data|
  {
    if offset + HEADER_SIZE > |data| || data[offset..offset + 4] != CAPTURE then None
    else
      var from, count := offset + HEADER_SIZE, data[offset + 26];
      if from + count > |data| then None
      else
        var segments := Cut(data, from + count, data[from..from + count]);
        if segments.None? then None else Some((segments.value, from + count + |Concat(segments.value)|))
  }

  /** None is the ValueError of a malformed, truncated or incomplete file. */
  function DemuxFrom(data: seq<byte>, offset: nat, r: Reader): Option<seq<seq<byte>>>
    requires offset <= |data|
    decreases |data| - offset
  {
    if offset == |data| then (if r.pending == [] then Some(r.packets) else None)
    else
      var page := ReadPage(data, offset);
      if page.None? then None else DemuxFrom(data, page.value.1, Absorb(r, page.value.0))
  }

  function Demux(data: seq<byte>): Option<seq<seq<byte>>> { DemuxFrom(data, 0, Reader([], [])) }

  lemma {:induction false} AbsorbConcat(r: Reader, a: seq<seq<byte>>, b: seq<seq<byte>>)
    ensures Absorb(r, a + b) == Absorb(Absorb(r, a), b)
    decreases |a|
  {
    if a == [] {
      assert a + b == b;
    } else {
      assert (a + b)[1..] == a[1..] + b;
      AbsorbConcat(Absorb(r, [a[0]]), a[1..], b);
      assert Absorb(r, [a[0]]) == Absorb(Absorb(r, [a[0]]), []);
    }
  }

  /** The segments of a packet put it together again. */
  lemma {:induction false} AbsorbPacket(r: Reader, p: seq<byte>)
    ensures Absorb(r, Segments(p)) == Reader([], Emit(r.packets, r.pending + p))
    decreases |p|
  {
    if |p| >= 255 {
      AbsorbPacket(Reader(r.pending + p[..255], r.packets), p[255..]);
      assert (r.pending + p[..255]) + p[255..] == r.pending + p;
      assert Segments(p)[1..] == Segments(p[255..]);
    } else {
      assert Segments(p)[1..] == [];
    }
  }

  /** The packets that are not Opus headers. */
  function Audio(packets: seq<seq<byte>>): seq<seq<byte>> {
    if packets == [] then []
    else if IsHeaderPacket(packets[0]) then Audio(packets[1..])
    else [packets[0]] + Audio(packets[1..])
  }

  lemma {:induction false} AbsorbAll(done: seq<seq<byte>>, packets: seq<seq<byte>>)
    ensures Absorb(Reader([], done), AllSegments(packets)) == Reader([], done + Audio(packets))
    decreases |packets|
  {
    hide Absorb, Segments, IsHeaderPacket;
    if packets == [] {
      AbsorbNothing(Reader([], done));
    } else {
      var p, rest := packets[0], packets[1..];
      AbsorbConcat(Reader([], done), Segments(p), AllSegments(rest));
      AbsorbPacket(Reader([], done), p);
      assert [] + p == p;
      AbsorbAll(Emit(done, p), rest);
    }
  }

  lemma {:induction false} TwoSlices(data: seq<byte>, at: nat, a: seq<byte>, b: seq<byte>)
    requires at + |a + b| <= |data| && data[at..at + |a + b|] == a + b
    ensures data[at..at + |a|] == a && data[at + |a|..at + |a| + |b|] == b
  {
    var whole := data[at..at + |a + b|];
    assert data[at..at + |a|] == whole[..|a|];
    assert data[at + |a|..at + |a| + |b|] == whole[|a|..];
  }

  lemma {:induction false} CutsConcat(data: seq<byte>, at: nat, lacing: seq<byte>, segments: seq<seq<byte>>)
    requires Lengths(lacing, segments) && at + |Concat(segments)| <= |data|
    requires data[at..at + |Concat(segments)|] == Concat(segments)
    ensures Cut(data, at, lacing) == Some(segments)
    decreases |segments|
  {
    if segments != [] {
      var first, rest := segments[0], Concat(segments[1..]);
      TwoSlices(data, at, first, rest);
      CutsConcat(data, at + |first|, lacing[1..], segments[1..]);
      hide Concat;
      assert segments == [first] + segments[1..];
    }
  }

  lemma {:induction false} ReadsPage(before: seq<byte>, g: Page, more: seq<byte>)
    requires LegalPage(g)
    ensures ReadPage(before + PageBytes(g) + more, |before|) == Some((g.segments, |before| + |PageBytes(g)|))
  {
    hide Concat, Lacing, Cut;
    PageSlices(before, CAPTURE, g.header, |g.segments|, Lacing(g.segments), Concat(g.segments), more);
    CutsConcat(before + PageBytes(g) + more, |before| + HEADER_SIZE + |g.segments|, Lacing(g.segments), g.segments);
  }

  /** Where the parts of a page lie in a file. */
  lemma {:induction false} PageSlices(before: seq<byte>, capture: seq<byte>, header: seq<byte>, count: byte, lacing: seq<byte>, body: seq<byte>, more: seq<byte>)
    requires |capture| == 4 && |header| == 22
    ensures var data, at := before + (capture + header + [count] + lacing + body) + more, |before|;
            var from := at + HEADER_SIZE;
            && data[at..at + 4] == capture && data[at + 26] == count
            && data[from..from + |lacing|] == lacing
            && data[from + |lacing|..from + |lacing| + |body|] == body
  {
  }

  lemma {:induction false} DemuxesPages(before: seq<byte>, pages: seq<Page>, r: Reader)
    requires forall g <- pages :: LegalPage(g)
    ensures var end := Absorb(r, PageSegments(pages));
            DemuxFrom(before + FileBytes(pages), |before|, r) == if end.pending == [] then Some(end.packets) else None
    decreases |pages|
  {
    hide ReadPage, PageBytes, LegalPage, Absorb;
    var data := before + FileBytes(pages);
    if pages == [] {
      AbsorbNothing(r);
    } else {
      var g, rest := pages[0], pages[1..];
      assert data == before + PageBytes(g) + FileBytes(rest);
      PageIsNotEmpty(g);
      ReadsPage(before, g, FileBytes(rest));
      DemuxesPages(before + PageBytes(g), rest, Absorb(r, g.segments));
      AbsorbConcat(r, g.segments, PageSegments(rest));
    }
  }

  lemma {:induction false} AbsorbNothing(r: Reader)
    ensures Absorb(r, []) == r
  {
  }

  lemma {:induction false} PageIsNotEmpty(g: Page)
    requires LegalPage(g)
    ensures |PageBytes(g)| >= HEADER_SIZE
  {
  }

  /** Any packets are recovered from any legal division of their segments into pages. */
  lemma {:induction false} DemuxRecoversPackets(pages: seq<Page>, packets: seq<seq<byte>>)
    requires (forall g <- pages :: LegalPage(g)) && PageSegments(pages) == AllSegments(packets)
    ensures Demux(FileBytes(pages)) == Some(Audio(packets))
  {
    DemuxesPages([], pages, Reader([], []));
    AbsorbAll([], packets);
    assert [] + FileBytes(pages) == FileBytes(pages) && [] + Audio(packets) == Audio(packets);
  }

  /** Conversely, whatever is accepted is a sequence of legal pages. */
  lemma {:induction false} AcceptedIsPages(data: seq<byte>, offset: nat, r: Reader) returns (pages: seq<Page>)
    requires offset <= |data| && DemuxFrom(data, offset, r).Some?
    ensures (forall g <- pages :: LegalPage(g)) && data[offset..] == FileBytes(pages)
    ensures Absorb(r, PageSegments(pages)) == Reader([], DemuxFrom(data, offset, r).value)
    decreases |data| - offset
  {
    hide ReadPage, PageBytes, LegalPage, Absorb;
    if offset == |data| {
      pages := [];
      AbsorbNothing(r);
    } else {
      var (segments, end) := ReadPage(data, offset).value;
      var g := PageAt(data, offset);
      var rest := AcceptedIsPages(data, end, Absorb(r, segments));
      pages := [g] + rest;
      assert data[offset..] == data[offset..end] + data[end..];
      AbsorbConcat(r, segments, PageSegments(rest));
      assert pages[1..] == rest;
    }
  }

  /** What an accepted page says about the bytes. */
  lemma {:induction false} PageParts(data: seq<byte>, offset: nat)
    requires offset < |data| && ReadPage(data, offset).Some?
    ensures var (segments, end) := ReadPage(data, offset).value;
            var body := offset + HEADER_SIZE + |segments|;
            && offset + HEADER_SIZE <= body <= end <= |data| && data[offset..offset + 4] == CAPTURE && data[offset + 26] == |segments|
            && Lengths(data[offset + HEADER_SIZE..body], segments) && data[body..end] == Concat(segments)
  {
  }

  lemma {:induction false} PageAt(data: seq<byte>, offset: nat) returns (g: Page)
    requires offset < |data| && ReadPage(data, offset).Some?
    ensures LegalPage(g) && g.segments == ReadPage(data, offset).value.0
    ensures data[offset..ReadPage(data, offset).value.1] == PageBytes(g)
  {
    hide ReadPage, Concat, Lacing, Lengths;
    PageParts(data, offset);
    var (segments, end) := ReadPage(data, offset).value;
    g := Page(data[offset + 4..offset + 26], segments);
    var from, n := offset + HEADER_SIZE, |segments|;
    LengthsUnique(data[from..from + n], segments);
    FiveSlices(data, offset, from + n, end);
  }

  lemma {:induction false} LengthsUnique(lacing: seq<byte>, segments: seq<seq<byte>>)
    requires Lengths(lacing, segments)
    ensures forall k :: 0 <= k < |segments| ==> |segments[k]| < 256
    ensures Lacing(segments) == lacing
  {
  }

  lemma {:induction false} FiveSlices(data: seq<byte>, at: nat, body: nat, end: nat)
    requires at + HEADER_SIZE <= body <= end <= |data|
    ensures data[at..end] == data[at..at + 4] + data[at + 4..at + 26] + [data[at + 26]] + data[at + HEADER_SIZE..body] + data[body..end]
  {
  }

  /** A position in a page: where it is, what lacing is left, and what has been read. */
  datatype Progress = Progress(at: nat, lacing: seq<byte>, reader: Reader)

  /** Where the rest of the page leads: its end and what has then been read, if it is all there. */
  ghost function Outlook(data: seq<byte>, p: Progress): Option<(nat, Reader)>
    requires p.at <= |data|
  {
    var rest := Cut(data, p.at, p.lacing);
    if rest.None? then None else Some((p.at + |Concat(rest.value)|, Absorb(p.reader, rest.value)))
  }

  function AfterSegment(r: Reader, s: seq<byte>): Reader {
    if |s| < 255 then Reader([], Emit(r.packets, r.pending + s)) else Reader(r.pending + s, r.packets)
  }

  lemma {:induction false} OneSegment(data: seq<byte>, p: Progress)
    requires p.at <= |data| && p.lacing != []
    ensures p.at + p.lacing[0] > |data| ==> Outlook(data, p).None?
    ensures p.at + p.lacing[0] <= |data| ==>
              var end := p.at + p.lacing[0];
              Outlook(data, p) == Outlook(data, Progress(end, p.lacing[1..], AfterSegment(p.reader, data[p.at..end])))
  {
    if p.at + p.lacing[0] <= |data| {
      var rest := Cut(data, p.at + p.lacing[0], p.lacing[1..]);
      if rest.Some? {
        assert ([data[p.at..p.at + p.lacing[0]]] + rest.value)[1..] == rest.value;
      }
    }
  }

  lemma {:induction false} NoSegmentLeft(data: seq<byte>, at: nat, r: Reader)
    requires at <= |data|
    ensures Outlook(data, Progress(at, [], r)) == Some((at, r))
  {
  }

  /** The loop over the lacing of one page; None when the page is cut short. */
  method ReadSegments(data: seq<byte>, from: nat, lacing: seq<byte>, r: Reader) returns (result: Option<(nat, Reader)>)
    requires from <= |data|
    ensures result == Outlook(data, Progress(from, lacing, r))
  {
    hide Outlook, IsHeaderPacket;
    var position, pending, packets := from, r.pending, r.packets;
    for k := 0 to |lacing|
      invariant 0 <= position <= |data|
      invariant Outlook(data, Progress(from, lacing, r)) == Outlook(data, Progress(position, lacing[k..], Reader(pending, packets)))
    {
      var length := lacing[k];
      OneSegment(data, Progress(position, lacing[k..], Reader(pending, packets)));
      assert lacing[k..][1..] == lacing[k + 1..];
      if position + length > |data| {
        return None;
      }
      pending := pending + data[position..position + length];
      position := position + length;
      if length < 255 {
        packets := if IsHeaderPacket(pending) then packets else packets + [pending];
        pending := [];
      }
    }
    assert lacing[|lacing|..] == [];
    NoSegmentLeft(data, position, Reader(pending, packets));
    return Some((position, Reader(pending, packets)));
  }

  /** One turn of the demultiplexer's outer loop. */
  lemma {:induction false} DemuxStep(data: seq<byte>, offset: nat, r: Reader)
    requires offset < |data|
    ensures var from := offset + HEADER_SIZE;
            if from > |data| || data[offset..offset + 4] != CAPTURE || from + data[offset + 26] > |data| then
              DemuxFrom(data, offset, r).None?
            else
              var start := from + data[offset + 26];
              var page := Outlook(data, Progress(start, data[from..start], r));
              if page.None? then DemuxFrom(data, offset, r).None?
              else offset < page.value.0 <= |data| && DemuxFrom(data, offset, r) == DemuxFrom(data, page.value.0, page.value.1)
  {
    hide Absorb, Concat, Cut;
  }

  lemma {:induction false} DemuxEnd(data: seq<byte>, r: Reader)
    ensures DemuxFrom(data, |data|, r) == if r.pending == [] then Some(r.packets) else None
  {
  }

  /** `ogg_packets`. */
  method OggPackets(data: seq<byte>) returns (result: Option<seq<seq<byte>>>)
    ensures result == Demux(data)
  {
    var offset, r := 0, Reader([], []);
    hide DemuxFrom, Outlook;
    while offset < |data|
      invariant 0 <= offset <= |data| && Demux(data) == DemuxFrom(data, offset, r)
    {
      DemuxStep(data, offset, r);
      if offset + 27 > |data| || data[offset..offset + 4] != CAPTURE {
        return None;
      }
      var segments := data[offset + 26];
      var from := offset + 27;
      if from + segments > |data| {
        return None;
      }
      var page := ReadSegments(data, from + segments, data[from..from + segments], r);
      if page.None? {
        return None;
      }
      offset, r := page.value.0, page.value.1;
    }
    DemuxEnd(data, r);
    if r.pending != [] {
      return None;
    }
    return Some(r.packets);
  }

  // ---- Multiplexing ----

  function LittleEndian(x: nat, size: nat): (r: seq<byte>)
    ensures |r| == size
  {
    if size == 0 then [] else [x % 256] + LittleEndian(x / 256, size - 1)
  }

  datatype Sample = Sample(packet: seq<byte>, millis: nat)

  /** The identification packet: version 1, one channel, no pre-skip, 48 kHz, no gain, family 0. */
  const HEAD: seq<byte> := OPUS_HEAD + [1, 1] + LittleEndian(0, 2) + LittleEndian(48000, 4) + LittleEndian(0, 2) + [0]

  /** The comment packet: vendor "BasisVoice" and no comments. */
  const TAGS: seq<byte> := OPUS_TAGS + LittleEndian(10, 4) + [0x42, 0x61, 0x73, 0x69, 0x73, 0x56, 0x6F, 0x69, 0x63, 0x65] + LittleEndian(0, 4)

  const CONTENTS_FIRST := [Sample(HEAD, 0), Sample(TAGS, 0)]

  function Repeat(x: byte, n: nat): (r: seq<byte>)
    ensures |r| == n && forall k :: 0 <= k < n ==> r[k] == x
  {
    seq(n, _ => x)
  }

  /** Everything the muxer puts before the checksum: version, flags, granule, serial and page number. */
  function MuxHeader(flags: byte, granule: nat, index: nat): (r: seq<byte>)
    ensures |r| == 18
  {
    [0, flags] + LittleEndian(granule, 8) + LittleEndian(1, 4) + LittleEndian(index, 4)
  }

  /** The muxer's own lacing is that of the packet's segments. */
  lemma {:induction false} MuxLacing(p: seq<byte>)
    ensures Lengths(Repeat(255, |p| / 255) + [|p| % 255], Segments(p)) && Concat(Segments(p)) == p
    ensures forall k :: 0 <= k < |Segments(p)| ==> |Segments(p)[k]| < 256
    decreases |p|
  {
    if |p| >= 255 {
      var tail := p[255..];
      MuxLacing(tail);
      assert |tail| / 255 == |p| / 255 - 1 && |tail| % 255 == |p| % 255;
      assert Segments(p)[1..] == Segments(tail);
      assert forall k :: 0 < k < |Segments(p)| ==> Segments(p)[k] == Segments(tail)[k - 1];
      assert p == p[..255] + tail;
    } else {
      assert Concat([p]) == p + Concat([p][1..]);
    }
  }

  /** A page as the muxer writes it, with whatever checksum. */
  function MuxPage(p: seq<byte>, flags: byte, granule: nat, index: nat, crc: seq<byte>): seq<byte>
    requires |p| / 255 < 255 && |crc| == 4
  {
    CAPTURE + MuxHeader(flags, granule, index) + crc + [|p| / 255 + 1] + (Repeat(255, |p| / 255) + [|p| % 255]) + p
  }

  lemma {:induction false} MuxPageIsPage(p: seq<byte>, flags: byte, granule: nat, index: nat, crc: seq<byte>)
    requires |p| / 255 < 255 && |crc| == 4
    ensures var g := Page(MuxHeader(flags, granule, index) + crc, Segments(p));
            LegalPage(g) && PageBytes(g) == MuxPage(p, flags, granule, index, crc)
  {
    MuxLacing(p);
    var g := Page(MuxHeader(flags, granule, index) + crc, Segments(p));
    assert Lacing(Segments(p)) == Repeat(255, |p| / 255) + [|p| % 255];
    assert CAPTURE + MuxHeader(flags, granule, index) + crc == CAPTURE + g.header;
  }

  function Payloads(contents: seq<Sample>): (r: seq<seq<byte>>)
    ensures |r| == |contents| && forall k :: 0 <= k < |r| ==> r[k] == contents[k].packet
  {
    seq(|contents|, k requires 0 <= k < |contents| => contents[k].packet)
  }

  /** The total duration in 48 kHz samples. */
  function Granule(contents: seq<Sample>): nat {
    if contents == [] then 0 else Granule(contents[..|contents| - 1]) + contents[|contents| - 1].millis * 48
  }

  lemma {:induction false} GranuleStart(contents: seq<Sample>)
    ensures Granule(contents[..0]) == 0
  {
  }

  lemma {:induction false} GranuleNext(contents: seq<Sample>, k: nat)
    requires k < |contents|
    ensures Granule(contents[..k + 1]) == Granule(contents[..k]) + contents[k].millis * 48
  {
    assert contents[..k + 1][..k] == contents[..k];
  }

  /** What a page can hold: at most 255 segments, a 64-bit granule position, a 32-bit page number. */
  predicate Fits(contents: seq<Sample>, k: nat)
    requires k < |contents|
  {
    |contents[k].packet| < 65025 && Granule(contents[..k + 1]) < 0x1_0000_0000_0000_0000 && k < 0x1_0000_0000
  }

  /**
   * `opus_ogg`: one page per packet, after the two header packets. None is the error of a packet
   * too large for a page or of an overflowing header field.
   */
  method OpusOgg(samples: seq<Sample>, crc: seq<byte> -> seq<byte>) returns (output: Option<seq<byte>>, ghost pages: seq<Page>)
    requires forall x :: |crc(x)| == 4
    ensures var contents := CONTENTS_FIRST + samples;
            output.Some? <==> forall k :: 0 <= k < |contents| ==> Fits(contents, k)
    ensures output.Some? ==>
              && (forall g <- pages :: LegalPage(g)) && output.value == FileBytes(pages)
              && PageSegments(pages) == AllSegments([HEAD, TAGS] + Payloads(samples))
  {
    GranuleStart(CONTENTS_FIRST + samples);
    hide Written, Granule;
    var contents := CONTENTS_FIRST + samples;
    var out, granule := [], 0;
    pages := [];
    NothingWritten(contents);
    for index := 0 to |contents|
      invariant forall k :: 0 <= k < index ==> Fits(contents, k)
      invariant granule == Granule(contents[..index])
      invariant Written(pages, out, contents, index)
    {
      var packet := contents[index].packet;
      GranuleNext(contents, index);
      granule := granule + contents[index].millis * 48;
      if |packet| / 255 >= 255 || granule >= 0x1_0000_0000_0000_0000 || index >= 0x1_0000_0000 {
        assert !Fits(contents, index);
        return None, pages;
      }
      var flags := (if index == 0 then 2 else 0) + if index == |contents| - 1 then 4 else 0;
      var sum := crc(MuxPage(packet, flags, granule, index, [0, 0, 0, 0]));
      pages := WriteOne(pages, out, contents, index, flags, granule, sum);
      out := out + MuxPage(packet, flags, granule, index, sum);
    }
    AllWritten(pages, out, samples);
    return Some(out), pages;
  }

  /** The output so far is pages that hold the segments of the first `index` packets. */
  ghost predicate Written(pages: seq<Page>, out: seq<byte>, contents: seq<Sample>, index: nat) {
    && (forall g <- pages :: LegalPage(g)) && out == FileBytes(pages)
    && index <= |contents| && PageSegments(pages) == AllSegments(Payloads(contents[..index]))
  }

  lemma {:induction false} NothingWritten(contents: seq<Sample>)
    ensures Written([], [], contents, 0)
  {
  }

  lemma {:induction false} WriteOne(pages: seq<Page>, out: seq<byte>, contents: seq<Sample>, index: nat, flags: byte, granule: nat, sum: seq<byte>)
    returns (r: seq<Page>)
    requires Written(pages, out, contents, index) && index < |contents|
    requires |contents[index].packet| / 255 < 255 && |sum| == 4
    ensures Written(r, out + MuxPage(contents[index].packet, flags, granule, index, sum), contents, index + 1)
  {
    var p := contents[index].packet;
    MuxPageIsPage(p, flags, granule, index, sum);
    hide LegalPage, PageBytes, Segments, MuxPage, FileBytes, AllSegments, PageSegments;
    r := AppendPage(pages, Page(MuxHeader(flags, granule, index) + sum, Segments(p)), contents, index);
  }

  lemma {:induction false} AllWritten(pages: seq<Page>, out: seq<byte>, samples: seq<Sample>)
    requires Written(pages, out, CONTENTS_FIRST + samples, |CONTENTS_FIRST + samples|)
    ensures (forall g <- pages :: LegalPage(g)) && out == FileBytes(pages)
    ensures PageSegments(pages) == AllSegments([HEAD, TAGS] + Payloads(samples))
  {
    var contents := CONTENTS_FIRST + samples;
    assert contents[..|contents|] == contents;
    assert Payloads(contents) == [HEAD, TAGS] + Payloads(samples);
  }

  lemma {:induction false} AppendPage(pages: seq<Page>, g: Page, contents: seq<Sample>, index: nat) returns (r: seq<Page>)
    requires index < |contents| && (forall x <- pages :: LegalPage(x)) && LegalPage(g) && g.segments == Segments(contents[index].packet)
    requires PageSegments(pages) == AllSegments(Payloads(contents[..index]))
    ensures r == pages + [g] && (forall x <- r :: LegalPage(x)) && FileBytes(r) == FileBytes(pages) + PageBytes(g)
    ensures PageSegments(r) == AllSegments(Payloads(contents[..index + 1]))
  {
    r := pages + [g];
    FileAppend(pages, g);
    SegmentsAppend(Payloads(contents[..index]), contents[index].packet);
    assert Payloads(contents[..index + 1]) == Payloads(contents[..index]) + [contents[index].packet];
  }

  lemma {:induction false} FileAppend(pages: seq<Page>, g: Page)
    requires (forall x <- pages :: LegalPage(x)) && LegalPage(g)
    ensures forall x <- pages + [g] :: LegalPage(x)
    ensures FileBytes(pages + [g]) == FileBytes(pages) + PageBytes(g)
    ensures PageSegments(pages + [g]) == PageSegments(pages) + g.segments
  {
    hide PageBytes, LegalPage;
    var all := pages + [g];
    if pages == [] {
      assert all == [g] && all[1..] == [];
      assert FileBytes(all) == PageBytes(g) + FileBytes(all[1..]);
    } else {
      assert all[1..] == pages[1..] + [g];
      FileAppend(pages[1..], g);
    }
  }

  lemma {:induction false} SegmentsAppend(packets: seq<seq<byte>>, p: seq<byte>)
    ensures AllSegments(packets + [p]) == AllSegments(packets) + Segments(p)
  {
    hide Segments;
    var all := packets + [p];
    if packets == [] {
      assert all == [p] && all[1..] == [];
    } else {
      assert all[1..] == packets[1..] + [p];
      SegmentsAppend(packets[1..], p);
    }
  }

  lemma {:induction false} AudioIsAll(packets: seq<seq<byte>>)
    ensures |Audio(packets)| <= |packets|
    ensures Audio(packets) == packets <==> forall k :: 0 <= k < |packets| ==> !IsHeaderPacket(packets[k])
  {
    if packets != [] {
      AudioIsAll(packets[1..]);
      assert packets == [packets[0]] + packets[1..];
      assert forall k :: 0 < k < |packets| ==> packets[k] == packets[1..][k - 1];
    }
  }

  /**
   * The round trip: what `opus_ogg` writes, `ogg_packets` reads back without the headers, and
   * gets exactly the packets if and only if none of them looks like a header.
   */
  method RoundTrip(samples: seq<Sample>, crc: seq<byte> -> seq<byte>) returns (written: Option<seq<byte>>, read: Option<seq<seq<byte>>>)
    requires forall x :: |crc(x)| == 4
    ensures written.Some? ==> read == Some(Audio(Payloads(samples)))
    ensures written.Some? ==>
              (read == Some(Payloads(samples)) <==> forall k :: 0 <= k < |samples| ==> !IsHeaderPacket(samples[k].packet))
  {
    read := None;
    ghost var pages;
    written, pages := OpusOgg(samples, crc);
    if written.Some? {
      read := OggPackets(written.value);
      DemuxRecoversPackets(pages, [HEAD, TAGS] + Payloads(samples));
      HeadersAreSkipped(Payloads(samples));
      AudioIsAll(Payloads(samples));
    }
  }

  lemma {:induction false} HeadersAreSkipped(packets: seq<seq<byte>>)
    ensures Audio([HEAD, TAGS] + packets) == Audio(packets)
  {
  }
}
