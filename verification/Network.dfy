/** Loads from a byte buffer in network order (Be) and in the machine's own order (Le). */
module Bytes {
  type byte = x: int | 0 <= x < 0x100

  function Load16Be(b: seq<byte>, at: nat): (v: nat)
    requires at + 2 <= |b|
    ensures v < 0x1_0000
  {
    b[at] as int * 0x100 + b[at + 1] as int
  }

  function Load16Le(b: seq<byte>, at: nat): (v: nat)
    requires at + 2 <= |b|
    ensures v < 0x1_0000
  {
    b[at] as int + b[at + 1] as int * 0x100
  }

  function Load32Le(b: seq<byte>, at: nat): (v: nat)
    requires at + 4 <= |b|
    ensures v < 0x1_0000_0000
  {
    b[at] as int + b[at + 1] as int * 0x100 + b[at + 2] as int * 0x1_0000 + b[at + 3] as int * 0x100_0000
  }

  /** `memcpy` into a buffer. */
  method CopyInto(buffer: array<byte>, at: nat, source: seq<byte>)
    requires at + |source| <= buffer.Length
    modifies buffer
    ensures buffer[..at + |source|] == old(buffer[..at]) + source
    ensures buffer[at + |source|..] == old(buffer[at + |source|..])
  {
    var i := 0;
    while i < |source|
      invariant i <= |source|
      invariant buffer[..at + i] == old(buffer[..at]) + source[..i]
      invariant forall j :: at + i <= j < buffer.Length ==> buffer[j] == old(buffer[j])
    {
      buffer[at + i] := source[i];
      i := i + 1;
    }
  }
}

/** The view of a received frame that `UDP_HDR` gives: Ethernet, IP (no options) and UDP headers.
    Fields the program compares without `ntohs` are loaded in the machine's order. */
module Network {
  import opened Bytes

  const ETHER_HEADER := 14
  const IP_HEADER := 20
  const UDP_HEADER := 8
  const UDP_HDR := ETHER_HEADER + IP_HEADER + UDP_HEADER
  const ETHERTYPE_IP := 0x0008   // as loaded on a little-endian machine
  const ETHERTYPE_ARP := 0x0608
  const IPPROTO_UDP := 17

  /** Enough bytes for the three headers: what every frame delivered by the network has. */
  type Frame = f: seq<byte> | |f| >= UDP_HDR witness seq(UDP_HDR, _ => 0)

  /** A `DataContainer`: the address names the allocation, `length` is |bytes|. */
  datatype Packet = Packet(address: nat, bytes: Frame)

  function EtherType(p: Packet): nat { Load16Le(p.bytes, 12) }
  function TotLen(p: Packet): nat { Load16Be(p.bytes, 16) }
  function IpId(p: Packet): nat { Load16Le(p.bytes, 18) }
  function FragOff(p: Packet): nat { Load16Be(p.bytes, 20) }
  function Protocol(p: Packet): nat { p.bytes[23] }
  function SrcIP(p: Packet): nat { Load32Le(p.bytes, 26) }
  function DstIP(p: Packet): nat { Load32Le(p.bytes, 30) }
  function UdpDest(f: Frame): nat { Load16Be(f, 36) }
  function UdpLen(f: Frame): nat { Load16Be(f, 38) }

  predicate MoreFragments(p: Packet) { FragOff(p) / 0x2000 % 2 == 1 }
  function Offset(p: Packet): nat { FragOff(p) % 0x2000 * 8 }
  predicate IsFragment(p: Packet) { MoreFragments(p) || Offset(p) != 0 }

  /** Bytes of IP payload the header announces; negative when `tot_len` is shorter than the header. */
  function PayloadLen(p: Packet): int { TotLen(p) - IP_HEADER }

  /** One past the last payload byte of the datagram that this fragment carries. */
  function EndOf(p: Packet): int { Offset(p) + PayloadLen(p) }

  /** The announced payload exists and lies inside the container. */
  predicate Readable(p: Packet) { 0 <= PayloadLen(p) && ETHER_HEADER + TotLen(p) <= |p.bytes| }

  function Payload(p: Packet): (b: seq<byte>)
    requires Readable(p)
    ensures |b| == PayloadLen(p)
  {
    p.bytes[ETHER_HEADER + IP_HEADER..ETHER_HEADER + TotLen(p)]
  }

  /** No Ethernet padding after the IP datagram. */
  predicate Unpadded(p: Packet) { |p.bytes| == ETHER_HEADER + TotLen(p) }
}
