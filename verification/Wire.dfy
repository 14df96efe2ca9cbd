/** The headers as RFC 791 and RFC 768 lay them out, in network byte order, against the fields the
    program reads. */
module Wire {
  import opened Bytes
  import opened Network
  import opened StoreRuns

  /** An address in dotted notation. */
  datatype Address = Address(a: byte, b: byte, c: byte, d: byte)

  /** The Ethernet type and the IP fields that matter here; `offset` counts bytes. */
  datatype IpHeader = IpHeader(
    etherType: nat, totLen: nat, id: nat, reserved: bool, dontFragment: bool, moreFragments: bool, offset: nat,
    protocol: nat, source: Address, destination: Address)

  predicate Encodable(h: IpHeader) {
    && h.etherType < 0x1_0000 && h.totLen < 0x1_0000 && h.id < 0x1_0000 && h.protocol < 0x100
    && h.offset < 0x1_0000 && h.offset % 8 == 0
  }

  /** Two bytes, the more significant one first. */
  predicate Word(b: seq<byte>, at: nat, v: nat) {
    at + 2 <= |b| && v < 0x1_0000 && b[at] == v / 0x100 && b[at + 1] == v % 0x100
  }

  predicate AddressAt(b: seq<byte>, at: nat, x: Address) {
    at + 4 <= |b| && b[at] == x.a && b[at + 1] == x.b && b[at + 2] == x.c && b[at + 3] == x.d
  }

  /** Three flag bits and the offset in units of eight bytes, in 13 bits. */
  function FlagsAndOffset(h: IpHeader): nat {
    (if h.reserved then 0x8000 else 0) + (if h.dontFragment then 0x4000 else 0)
    + (if h.moreFragments then 0x2000 else 0) + h.offset / 8
  }

  /** The frame carries the header; all other bytes are free. */
  predicate Carries(b: seq<byte>, h: IpHeader) {
    && Encodable(h)
    && Word(b, 12, h.etherType)
    && Word(b, 16, h.totLen) && Word(b, 18, h.id) && Word(b, 20, FlagsAndOffset(h))
    && |b| > 23 && b[23] == h.protocol
    && AddressAt(b, 26, h.source) && AddressAt(b, 30, h.destination)
  }

  /** The UDP header in front of the data. */
  predicate CarriesUdp(b: seq<byte>, destPort: nat, udpLen: nat) { Word(b, 36, destPort) && Word(b, 38, udpLen) }

  lemma WordReadsBack(b: seq<byte>, at: nat, v: nat)
    requires Word(b, at, v)
    ensures Load16Be(b, at) == v && Load16Le(b, at) == v % 0x100 * 0x100 + v / 0x100
  {
  }

  lemma FlagsReadBack(p: Packet, h: IpHeader)
    requires Encodable(h) && FragOff(p) == FlagsAndOffset(h)
    ensures Offset(p) == h.offset && MoreFragments(p) == h.moreFragments
  {
    hide Load16Be;
    var o := h.offset / 8;
    assert o < 0x2000 && o * 8 == h.offset;
    var high := FragOff(p) / 0x2000;
    assert high
      == (if h.reserved then 4 else 0) + (if h.dontFragment then 2 else 0) + (if h.moreFragments then 1 else 0);
  }

  /** An address as the program holds it: loaded without `ntohl`. */
  function MachineOrder(x: Address): nat { x.a + 0x100 * x.b + 0x1_0000 * x.c + 0x100_0000 * x.d }

  /** Every field the program reads is the one on the wire: for all flags, whatever the reserved and DF
      bits, and for all offsets. */
  lemma HeaderReadsBack(p: Packet, h: IpHeader)
    requires Carries(p.bytes, h)
    ensures TotLen(p) == h.totLen && Protocol(p) == h.protocol
    ensures Offset(p) == h.offset && MoreFragments(p) == h.moreFragments
    ensures IsFragment(p) <==> h.moreFragments || h.offset > 0
    ensures EtherType(p) == ETHERTYPE_IP <==> h.etherType == 0x0800
    ensures EtherType(p) == ETHERTYPE_ARP <==> h.etherType == 0x0806
    ensures IpId(p) == h.id % 0x100 * 0x100 + h.id / 0x100
    ensures SrcIP(p) == MachineOrder(h.source) && DstIP(p) == MachineOrder(h.destination)
  {
    hide Load16Be, Load16Le;
    WordReadsBack(p.bytes, 12, h.etherType);
    WordReadsBack(p.bytes, 16, h.totLen);
    WordReadsBack(p.bytes, 18, h.id);
    WordReadsBack(p.bytes, 20, FlagsAndOffset(h));
    FlagsReadBack(p, h);
  }

  lemma UdpReadsBack(f: Frame, destPort: nat, udpLen: nat)
    requires CarriesUdp(f, destPort, udpLen)
    ensures UdpDest(f) == destPort && UdpLen(f) == udpLen
  {
  }

  lemma WordIsThere(b: seq<byte>, at: nat) returns (v: nat)
    requires at + 2 <= |b|
    ensures Word(b, at, v)
  {
    v := b[at] as int * 0x100 + b[at + 1] as int;
  }

  lemma SameWord(b: seq<byte>, at: nat, v: nat, w: nat)
    requires Word(b, at, v) && Word(b, at, w)
    ensures v == w
  {
  }

  lemma SameFlags(g: IpHeader, h: IpHeader)
    requires Encodable(g) && Encodable(h) && FlagsAndOffset(g) == FlagsAndOffset(h)
    ensures g.reserved == h.reserved && g.dontFragment == h.dontFragment && g.moreFragments == h.moreFragments
    ensures g.offset == h.offset
  {
    assert g.offset / 8 < 0x2000 && h.offset / 8 < 0x2000;
  }

  /** Every frame carries exactly one header. */
  lemma EveryFrameCarries(p: Packet) returns (h: IpHeader, destPort: nat, udpLen: nat)
    ensures Carries(p.bytes, h) && CarriesUdp(p.bytes, destPort, udpLen)
    ensures forall g :: Carries(p.bytes, g) ==> g == h
  {
    var b := p.bytes;
    var etherType := WordIsThere(b, 12);
    var totLen := WordIsThere(b, 16);
    var id := WordIsThere(b, 18);
    var flags := WordIsThere(b, 20);
    destPort := WordIsThere(b, 36);
    udpLen := WordIsThere(b, 38);
    h := IpHeader(etherType, totLen, id, flags / 0x8000 == 1, flags / 0x4000 % 2 == 1, flags / 0x2000 % 2 == 1,
      flags % 0x2000 * 8, b[23], Address(b[26], b[27], b[28], b[29]), Address(b[30], b[31], b[32], b[33]));
    assert FlagsAndOffset(h) == flags;
    forall g | Carries(b, g) ensures g == h {
      SameWord(b, 20, FlagsAndOffset(g), FlagsAndOffset(h));
      SameWord(b, 12, g.etherType, h.etherType);
      SameWord(b, 16, g.totLen, h.totLen);
      SameWord(b, 18, g.id, h.id);
      SameFlags(g, h);
    }
  }

  lemma SameDigit(a: byte, b: byte, q: nat, r: nat)
    requires a + 0x100 * q == b + 0x100 * r
    ensures a == b && q == r
  {
  }

  lemma MachineOrderIsInjective(x: Address, y: Address)
    ensures MachineOrder(x) == MachineOrder(y) <==> x == y
  {
    if MachineOrder(x) == MachineOrder(y) {
      SameDigit(x.a, y.a, x.b + 0x100 * x.c + 0x1_0000 * x.d, y.b + 0x100 * y.c + 0x1_0000 * y.d);
      SameDigit(x.b, y.b, x.c + 0x100 * x.d, y.c + 0x100 * y.d);
      SameDigit(x.c, y.c, x.d, y.d);
    }
  }

  lemma SwappedIsInjective(v: nat, w: nat)
    requires v < 0x1_0000 && w < 0x1_0000
    ensures v % 0x100 * 0x100 + v / 0x100 == w % 0x100 * 0x100 + w / 0x100 <==> v == w
  {
  }

  /** Two fragments share a key exactly if they carry the same source and identification. */
  lemma KeyOnTheWire(p: Packet, q: Packet, g: IpHeader, h: IpHeader)
    requires Carries(p.bytes, g) && Carries(q.bytes, h)
    ensures Key(p) == Key(q) <==> g.source == h.source && g.id == h.id
  {
    hide Load16Le, Load16Be, Load32Le, Key, MachineOrder, FlagsAndOffset, Word, AddressAt, IsFragment, MoreFragments;
    HeaderReadsBack(p, g);
    HeaderReadsBack(q, h);
    KeyIsInjective(p, q);
    MachineOrderIsInjective(g.source, h.source);
    SwappedIsInjective(g.id, h.id);
  }
}
