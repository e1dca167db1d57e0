/** Values that travel between the two ends of a reliable channel. */
module Packets {
  import opened Sequences

  datatype Option<+T> = None | Some(value: T)

  type byte = x: int | 0 <= x < 256 witness 0

  /** Sixteen-bit fields are little-endian throughout the protocol. */
  function FromLe16(low: byte, high: byte): nat { low + 256 * high }

  function Le16(x: nat): (r: seq<byte>)
    requires x < 65536
    ensures |r| == 2 && FromLe16(r[0], r[1]) == x
  {
    [x % 256, x / 256]
  }

  /** What follows the four-byte channeled header; `fragmented` is bit 0x80 of the first byte. */
  datatype Body = Body(fragmented: bool, bytes: seq<byte>)

  /** A channeled packet; `sequence` is the raw ushort of the header. */
  datatype Packet = Packet(sequence: nat, body: Body)

  /** An acknowledgement: datagram size, header window start and the absolute bit map. */
  datatype AckPacket = AckPacket(size: nat, sequence: nat, bits: seq<bool>)

  const HEADER_SIZE := 4
  const ACK_DATA_SIZE := (WINDOW - 1) / 8 + 2
  const ACK_SIZE := HEADER_SIZE + ACK_DATA_SIZE

  predicate HasBit(bits: seq<bool>, index: nat) {
    index < |bits| && bits[index]
  }
}
