/** What becomes of a frame, said in terms of the headers on the wire. */
module Verdicts {
  import opened Bytes
  import opened Network
  import opened Sums
  import opened Reassembly
  import opened StoreRuns
  import opened FrameHandling
  import opened Wire

  predicate CarriesUdpDatagram(h: IpHeader) { h.etherType == 0x0800 && h.protocol == 17 }
  predicate PartOfDatagram(h: IpHeader) { h.moreFragments || h.offset > 0 }

  /** The frame is longer than neither length field says; of fragments nothing is asked. */
  predicate LongEnough(h: IpHeader, udpLen: nat, length: nat) {
    PartOfDatagram(h) || (14 + h.totLen <= length && 34 + udpLen <= length)
  }

  lemma HeaderDecides(cfg: Config, p: Packet, h: IpHeader, destPort: nat, udpLen: nat)
    requires Carries(p.bytes, h) && CarriesUdp(p.bytes, destPort, udpLen)
    ensures IsUdp(p) <==> CarriesUdpDatagram(h)
    ensures IsFragment(p) <==> PartOfDatagram(h)
    ensures CheckFrame(p) <==> LongEnough(h, udpLen, |p.bytes|)
    ensures DstIP(p) == MachineOrder(h.destination) && UdpDest(p.bytes) == destPort && UdpLen(p.bytes) == udpLen
  {
    hide Load16Be, Load16Le, Load32Le, IsFragment;
    HeaderReadsBack(p, h);
    UdpReadsBack(p.bytes, destPort, udpLen);
  }

  /** Frames that go no further than the filters. */
  lemma Filtered(cfg: Config, s: Store, p: Packet, h: IpHeader, destPort: nat, udpLen: nat, v: Verdict)
    requires Carries(p.bytes, h) && CarriesUdp(p.bytes, destPort, udpLen) && Judged(cfg, s, p, v)
    ensures v == Arp <==> h.etherType == 0x0806
    ensures v == NotIp <==> !CarriesUdpDatagram(h) && h.etherType != 0x0806
    ensures v == Broken <==> CarriesUdpDatagram(h) && !LongEnough(h, udpLen, |p.bytes|)
    ensures v == WrongDestination <==>
      CarriesUdpDatagram(h) && LongEnough(h, udpLen, |p.bytes|) && MachineOrder(h.destination) != cfg.myIP
    ensures v != Flushed
  {
    hide Load16Be, Load16Le, Load32Le, IsFragment, CheckFrame, EtherType, Protocol, DstIP, Allowed, Key, LongEnough;
    HeaderReadsBack(p, h);
    HeaderDecides(cfg, p, h, destPort, udpLen);
  }

  lemma DataLength(f: Frame)
    ensures UdpLen(f) >= 8 ==> UdpDataLength(f) == UdpLen(f) - 8
    ensures UdpLen(f) < 8 ==> UdpDataLength(f) == UdpLen(f) - 8 + 0x1_0000_0000_0000_0000
  {
    hide Load16Be;
  }

  /** Datagrams in one piece: the destination port alone decides, apart from an empty one on the L1 port. */
  lemma Routed(cfg: Config, s: Store, p: Packet, h: IpHeader, destPort: nat, udpLen: nat, v: Verdict)
    requires Carries(p.bytes, h) && CarriesUdp(p.bytes, destPort, udpLen) && Judged(cfg, s, p, v)
    requires CarriesUdpDatagram(h) && LongEnough(h, udpLen, |p.bytes|) && MachineOrder(h.destination) == cfg.myIP
    requires !PartOfDatagram(h)
    ensures v.L0Mep? <==> destPort == cfg.l0Port
    ensures v.L1Mep? <==> destPort == cfg.creamPort && destPort != cfg.l0Port && udpLen != 8
    ensures v == EmptyL1 <==> destPort == cfg.creamPort && destPort != cfg.l0Port && udpLen == 8
    ensures v == UnknownPort <==> destPort != cfg.creamPort && destPort != cfg.l0Port
    ensures v.L0Mep? && udpLen >= 8 ==> v.length == udpLen - 8 && v.data == p.bytes[42..34 + udpLen]
    ensures v.L1Mep? && udpLen >= 8 ==> v.length == udpLen - 8 && v.data == p.bytes[42..34 + udpLen]
  {
    hide Load16Be, Load16Le, Load32Le, IsFragment, CheckFrame, EtherType, Protocol, DstIP, Allowed, Key, UdpDest, UdpLen;
    HeaderDecides(cfg, p, h, destPort, udpLen);
    DataLength(p.bytes);
  }

  /** Fragments for this machine go to the store, whatever their lengths. */
  lemma Stored(cfg: Config, s: Store, p: Packet, h: IpHeader, destPort: nat, udpLen: nat, v: Verdict)
    requires Carries(p.bytes, h) && CarriesUdp(p.bytes, destPort, udpLen) && Judged(cfg, s, p, v)
    requires CarriesUdpDatagram(h) && MachineOrder(h.destination) == cfg.myIP && PartOfDatagram(h)
    ensures exists out ::
      && Allowed(Entry(s, Key(p)) + [p], out)
      && v == if out.Frame? then Route(cfg, out.bytes) else if out.OutOfBounds? then Undefined else Absorbed
  {
    hide Load16Be, Load16Le, Load32Le, IsFragment, EtherType, Protocol, DstIP, Allowed, Key, Route;
    HeaderDecides(cfg, p, h, destPort, udpLen);
    var out :| Allowed(Entry(s, Key(p)) + [p], out) && v == FromStore(cfg, out);
  }

  // ---------- which book a container goes to ----------

  /** The handler itself frees the container. */
  predicate FreesInput(p: Packet, v: Verdict) {
    v in {Flushed, NotIp, Broken, WrongDestination} || (v in {EmptyL1, UnknownPort} && !IsFragment(p))
  }

  /** A MEP takes the container over. */
  predicate HandsOnInput(p: Packet, v: Verdict) { (v.L0Mep? || v.L1Mep?) && !IsFragment(p) }

  function AddIf(s: seq<Packet>, p: Packet, add: bool): seq<Packet> { if add then s + [p] else s }

  lemma RouteIsResult(cfg: Config, f: Frame)
    ensures var v := Route(cfg, f); v.L0Mep? || v.L1Mep? || v.EmptyL1? || v.UnknownPort?
  {
  }

  /** One book per verdict: freed, handed on, answered as ARP request, or left to the store. */
  lemma BookedByVerdict(cfg: Config, b: Books, p: Packet, flush: bool, v: Verdict)
    requires if flush then v == Flushed else Judged(cfg, b.store, p, v)
    ensures var r := Handle(cfg, b, p, flush);
      && r.freed == AddIf(b.freed, p, FreesInput(p, v))
      && r.handed == AddIf(b.handed, p, HandsOnInput(p, v))
      && r.arp == AddIf(b.arp, p, v == Arp)
      && (!IsFragment(p) || v in {Flushed, NotIp, Arp, Broken, WrongDestination} ==>
            r.store == b.store && r.released == b.released)
  {
    hide Load16Be, Load16Le, IsFragment, EtherType, Protocol, DstIP, Allowed, Key, CheckFrame, Next, ReleasedBy;
    RouteIsResult(cfg, p.bytes);
  }

  /** Of the containers of a task, those that go to one book. */
  function Chosen(ps: seq<Packet>, vs: seq<Verdict>, book: (Packet, Verdict) -> bool): seq<Packet>
    requires |ps| == |vs|
  {
    if ps == [] then []
    else
      var n := |ps| - 1;
      AddIf(Chosen(ps[..n], vs[..n], book), ps[n], book(ps[n], vs[n]))
  }

  function Answers(p: Packet, v: Verdict): bool { v == Arp }

  /** The verdict on the i-th container, judged against the store as its predecessors left it. */
  ghost predicate VerdictAt(
      cfg: Config, b: Books, containers: seq<Packet>, flushBurst: seq<bool>, i: nat, v: Verdict)
    requires i < |containers| == |flushBurst|
  {
    if flushBurst[i] then v == Flushed
    else Judged(cfg, HandleAll(cfg, b, containers[..i], flushBurst[..i]).store, containers[i], v)
  }

  /** Over a whole task. */
  lemma {:induction false} BookedOverTask(
      cfg: Config, b: Books, ps: seq<Packet>, flush: seq<bool>, vs: seq<Verdict>)
    requires |ps| == |flush| == |vs|
    requires forall i :: 0 <= i < |ps| ==> VerdictAt(cfg, b, ps, flush, i, vs[i])
    ensures var r := HandleAll(cfg, b, ps, flush);
      && r.freed == b.freed + Chosen(ps, vs, FreesInput)
      && r.handed == b.handed + Chosen(ps, vs, HandsOnInput)
      && r.arp == b.arp + Chosen(ps, vs, Answers)
  {
    hide Handle, Judged, FreesInput, HandsOnInput;
    if ps != [] {
      var n := |ps| - 1;
      forall i | 0 <= i < n ensures VerdictAt(cfg, b, ps[..n], flush[..n], i, vs[..n][i]) {
        assert ps[..n][..i] == ps[..i] && flush[..n][..i] == flush[..i];
        assert VerdictAt(cfg, b, ps, flush, i, vs[i]);
      }
      BookedOverTask(cfg, b, ps[..n], flush[..n], vs[..n]);
      assert VerdictAt(cfg, b, ps, flush, n, vs[n]);
      BookedByVerdict(cfg, HandleAll(cfg, b, ps[..n], flush[..n]), ps[n], flush[n], vs[n]);
    }
  }
}
