/** Filtering and routing of one frame, and the books of where its container went. */
module FrameHandling {
  import opened Bytes
  import opened Network
  import opened Reassembly
  import opened StoreRuns

  const SIZE_T := 0x1_0000_0000_0000_0000  // 2^64: lengths are computed in `size_t`

  datatype Config = Config(l0Port: nat, creamPort: nat, myIP: nat)

  /** What became of a frame. `Absorbed`: the fragment store took it and returned nothing. */
  datatype Verdict =
    | Flushed
    | NotIp | Arp | Broken | WrongDestination
    | Absorbed | Undefined
    | L0Mep(length: nat, data: seq<byte>)
    | L1Mep(length: nat, data: seq<byte>)
    | EmptyL1 | UnknownPort

  predicate HandedOver(v: Verdict) { v.L0Mep? || v.L1Mep? }

  /** The UDP data length as computed from the header, and the bytes it selects. */
  function UdpDataLength(f: Frame): nat { (UdpLen(f) - UDP_HEADER) % SIZE_T }

  function UdpData(f: Frame): seq<byte> {
    if UDP_HDR + UdpDataLength(f) <= |f| then f[UDP_HDR..UDP_HDR + UdpDataLength(f)] else f[UDP_HDR..]
  }

  /** The range handed to a MEP, from the UDP data on for the computed length, lies inside the frame. */
  predicate RangeInside(f: Frame) { UDP_HDR + UdpDataLength(f) <= |f| }

  /** That is so exactly when the UDP length covers its own header and ends inside the frame. */
  lemma RangeInsideIff(f: Frame)
    requires |f| < SIZE_T
    ensures RangeInside(f) <==> UDP_HEADER <= UdpLen(f) <= |f| - ETHER_HEADER - IP_HEADER
  {
    hide Bytes.Load16Be;
    if UdpLen(f) < UDP_HEADER {
      assert UdpDataLength(f) == UdpLen(f) - UDP_HEADER + SIZE_T;
    } else {
      assert UdpDataLength(f) == UdpLen(f) - UDP_HEADER;
    }
  }

  function Route(cfg: Config, f: Frame): Verdict {
    if UdpDest(f) == cfg.l0Port then L0Mep(UdpDataLength(f), UdpData(f))
    else if UdpDest(f) == cfg.creamPort then
      if UdpDataLength(f) == 0 then EmptyL1 else L1Mep(UdpDataLength(f), UdpData(f))
    else UnknownPort
  }

  predicate IsUdp(p: Packet) { EtherType(p) == ETHERTYPE_IP && Protocol(p) == IPPROTO_UDP }

  /** Lengths only; the checksum tests are commented out in the program. Fragments always pass. */
  predicate CheckFrame(p: Packet) {
    IsFragment(p) || (TotLen(p) + ETHER_HEADER <= |p.bytes| && UdpLen(p.bytes) + ETHER_HEADER + IP_HEADER <= |p.bytes|)
  }

  /** Of the two bounds `checkFrame` guards the upper one, and that for unfragmented frames only: such a
      frame that passes hands over a range inside itself exactly when its UDP length is at least 8. */
  lemma CheckedRange(p: Packet)
    requires CheckFrame(p) && !IsFragment(p) && |p.bytes| < SIZE_T
    ensures RangeInside(p.bytes) <==> UdpLen(p.bytes) >= UDP_HEADER
  {
    hide Bytes.Load16Be, IsFragment, RangeInside;
    RangeInsideIff(p.bytes);
  }

  /** The frame gets as far as the fragment store. */
  predicate Reaches(cfg: Config, p: Packet) { IsUdp(p) && DstIP(p) == cfg.myIP && IsFragment(p) }

  function FromStore(cfg: Config, out: Outcome): Verdict {
    match out
    case Frame(b) => Route(cfg, b)
    case OutOfBounds => Undefined
    case _ => Absorbed
  }

  /** The verdicts `processFrame` may reach on a frame, given what the store holds. */
  ghost predicate Judged(cfg: Config, s: Store, p: Packet, v: Verdict) {
    if !IsUdp(p) then v == if EtherType(p) == ETHERTYPE_ARP then Arp else NotIp
    else if !CheckFrame(p) then v == Broken
    else if DstIP(p) != cfg.myIP then v == WrongDestination
    else if IsFragment(p) then exists out :: Allowed(Entry(s, Key(p)) + [p], out) && v == FromStore(cfg, out)
    else v == Route(cfg, p.bytes)
  }

  /** Equal keys of two fragments in the store mean equal buffer identifiers in the sense of RFC 791
      section 3.2: source, destination, protocol and identification. */
  lemma KeyIsBufferIdentifier(cfg: Config, p: Packet, q: Packet)
    requires Reaches(cfg, p) && Reaches(cfg, q)
    ensures Key(p) == Key(q) <==>
      (SrcIP(p), DstIP(p), Protocol(p), IpId(p)) == (SrcIP(q), DstIP(q), Protocol(q), IpId(q))
  {
    hide Bytes.Load16Le, Bytes.Load32Le, Key, IsFragment;
    KeyIsInjective(p, q);
  }

  // ---------- where input containers go ----------

  /** The store together with the containers that are done with: freed by the handler, released by
      the store, handed to a MEP, or answered as ARP requests (which the visible code does not free). */
  datatype Books = Books(store: Store, freed: seq<Packet>, released: seq<Packet>, handed: seq<Packet>, arp: seq<Packet>)

  function Handle(cfg: Config, b: Books, p: Packet, flush: bool): Books {
    if flush then b.(freed := b.freed + [p])
    else if !IsUdp(p) then
      if EtherType(p) == ETHERTYPE_ARP then b.(arp := b.arp + [p]) else b.(freed := b.freed + [p])
    else if !CheckFrame(p) || DstIP(p) != cfg.myIP then b.(freed := b.freed + [p])
    else if IsFragment(p) then b.(store := Next(b.store, p), released := b.released + ReleasedBy(b.store, p))
    else if HandedOver(Route(cfg, p.bytes)) then b.(handed := b.handed + [p])
    else b.(freed := b.freed + [p])
  }

  function HandleAll(cfg: Config, b: Books, ps: seq<Packet>, flush: seq<bool>): Books
    requires |ps| == |flush|
  {
    if ps == [] then b
    else Handle(cfg, HandleAll(cfg, b, ps[..|ps| - 1], flush[..|ps| - 1]), ps[|ps| - 1], flush[|ps| - 1])
  }

  /** In how many places a container is. */
  function Places(b: Books, c: Packet): nat {
    HeldCopies(b.store, c) + multiset(b.freed)[c] + multiset(b.released)[c] + multiset(b.handed)[c] + multiset(b.arp)[c]
  }

  /** Whatever happens to a frame, its container ends up in exactly one more place, no other moves
      into or out of the books, and the store stays consistent. */
  lemma HandleConserves(cfg: Config, b: Books, p: Packet, flush: bool, c: Packet)
    requires Consistent(b.store)
    ensures Consistent(Handle(cfg, b, p, flush).store)
    ensures Places(Handle(cfg, b, p, flush), c) == Places(b, c) + (if c == p then 1 else 0)
  {
    hide Route, IsFragment, Key, EtherType, Protocol, DstIP, CheckFrame, Next, ReleasedBy, Consistent, HeldCopies;
    if !flush && IsUdp(p) && CheckFrame(p) && DstIP(p) == cfg.myIP && IsFragment(p) {
      NextIsConsistent(b.store, p);
      NextConserves(b.store, p, c);
    }
  }

  /** Of a whole task: every container ends up in exactly one more place. */
  lemma {:induction false} HandleAllConserves(cfg: Config, b: Books, ps: seq<Packet>, flush: seq<bool>, c: Packet)
    requires Consistent(b.store) && |ps| == |flush|
    ensures Consistent(HandleAll(cfg, b, ps, flush).store)
    ensures Places(HandleAll(cfg, b, ps, flush), c) == Places(b, c) + multiset(ps)[c]
  {
    hide Handle, Places, Consistent;
    if ps != [] {
      var n := |ps| - 1;
      HandleAllConserves(cfg, b, ps[..n], flush[..n], c);
      HandleConserves(cfg, HandleAll(cfg, b, ps[..n], flush[..n]), ps[n], flush[n], c);
      assert ps == ps[..n] + [ps[n]];
    }
  }
}

/** RFC 791 fragmentation is invisible behind `processFrame`. */
module Transparency {
  import opened Bytes
  import opened Network
  import opened Sums
  import opened Reassembly
  import opened Assembly
  import opened StoreRuns
  import opened FrameHandling

  /** A UDP datagram for this machine, in one piece. It may carry Ethernet padding. */
  predicate Addressed(cfg: Config, d: Packet) {
    IsUdp(d) && DstIP(d) == cfg.myIP && !IsFragment(d) && Readable(d)
  }

  /** The UDP length covers the UDP header and stays within the IP payload. */
  predicate LengthFits(d: Packet) { UDP_HEADER <= UdpLen(d.bytes) <= PayloadLen(d) }

  predicate Intact(cfg: Config, d: Packet) { Addressed(cfg, d) && LengthFits(d) }

  /** f carries the part of d's payload that its header announces. */
  predicate PieceOf(d: Packet, f: Packet) {
    && EtherType(f) == EtherType(d) && Protocol(f) == Protocol(d)
    && SrcIP(f) == SrcIP(d) && DstIP(f) == DstIP(d) && IpId(f) == IpId(d)
    && Readable(f) && PayloadLen(f) > 0 && Readable(d)
    && EndOf(f) <= PayloadLen(d) && Payload(f) == Payload(d)[Offset(f)..EndOf(f)]
  }

  /** fs is d cut into two or more fragments as section 3.2 of RFC 791 prescribes: consecutive
      pieces of the payload, MF set on all but the last. Headers may differ in every other field. */
  ghost predicate Fragmentation(d: Packet, fs: seq<Packet>) {
    && |fs| >= 2
    && (forall i :: 0 <= i < |fs| ==> PieceOf(d, fs[i]))
    && (forall i :: 0 <= i < |fs| ==> (MoreFragments(fs[i]) <==> i < |fs| - 1))
    && Chained(fs, PayloadLen, |fs|) && PayloadSum(fs) == PayloadLen(d)
  }

  /** Of the frames delivered, those that reach the fragment store. */
  function Arrivals(cfg: Config, ps: seq<Packet>): seq<Packet> {
    if ps == [] then []
    else Arrivals(cfg, ps[..|ps| - 1]) + (if Reaches(cfg, ps[|ps| - 1]) then [ps[|ps| - 1]] else [])
  }

  /** Of the frames delivered, those that reach the store under key k. */
  function Parts(cfg: Config, ps: seq<Packet>, k: nat): seq<Packet> { Only(Arrivals(cfg, ps), k) }

  lemma HandledStore(cfg: Config, b: Books, p: Packet)
    ensures Handle(cfg, b, p, false).store == if Reaches(cfg, p) then Next(b.store, p) else b.store
  {
    hide IsFragment, Key, EtherType, Protocol, DstIP, Next, ReleasedBy, Route;
  }

  /** The store after a task's frames were handled is the store after their arrivals: what the
      results below say of arrivals holds of the handler. */
  lemma {:induction false} StoreFollowsArrivals(cfg: Config, b: Books, ps: seq<Packet>, flush: seq<bool>)
    requires |ps| == |flush| && forall i :: 0 <= i < |flush| ==> !flush[i]
    ensures HandleAll(cfg, b, ps, flush).store == After(b.store, Arrivals(cfg, ps))
  {
    hide Handle, Next, Reaches;
    if ps != [] {
      var n := |ps| - 1;
      StoreFollowsArrivals(cfg, b, ps[..n], flush[..n]);
      HandledStore(cfg, HandleAll(cfg, b, ps[..n], flush[..n]), ps[n]);
      var a := Arrivals(cfg, ps[..n]);
      assert (a + [ps[n]])[..|a|] == a && a + [] == a;
    }
  }

  // ---------- bookkeeping of arrivals ----------

  lemma {:induction false} ArrivalsConcat(cfg: Config, ps: seq<Packet>, qs: seq<Packet>)
    ensures Arrivals(cfg, ps + qs) == Arrivals(cfg, ps) + Arrivals(cfg, qs)
    decreases |qs|
  {
    hide Reaches;
    if qs == [] {
      assert ps + qs == ps;
    } else {
      assert (ps + qs)[..|ps + qs| - 1] == ps + qs[..|qs| - 1];
      ArrivalsConcat(cfg, ps, qs[..|qs| - 1]);
    }
  }

  lemma PartsSplit(cfg: Config, ps: seq<Packet>, j: nat, k: nat)
    requires j < |ps| && Reaches(cfg, ps[j]) && Key(ps[j]) == k
    ensures Parts(cfg, ps, k) == Parts(cfg, ps[..j], k) + [ps[j]] + Parts(cfg, ps[j + 1..], k)
  {
    hide Reaches, Key;
    assert ps == ps[..j] + [ps[j]] + ps[j + 1..];
    ArrivalsConcat(cfg, ps[..j] + [ps[j]], ps[j + 1..]);
    ArrivalsConcat(cfg, ps[..j], [ps[j]]);
    OnlyOfConcat(Arrivals(cfg, ps[..j] + [ps[j]]), Arrivals(cfg, ps[j + 1..]), k);
    OnlyOfConcat(Arrivals(cfg, ps[..j]), Arrivals(cfg, [ps[j]]), k);
    assert [ps[j]][..0] == [];
    assert Arrivals(cfg, [ps[j]]) == [ps[j]];
    assert Only([ps[j]], k) == [ps[j]];
  }

  lemma {:induction false} OnlyHasKey(ps: seq<Packet>, k: nat)
    ensures forall p :: p in Only(ps, k) ==> Key(p) == k
  {
    hide Key;
    if ps != [] { OnlyHasKey(ps[..|ps| - 1], k); }
  }

  /** A list no prefix of which leaves the store simply accumulates there. */
  lemma {:induction false} Accumulates(q: seq<Packet>, k: nat)
    requires forall p :: p in q ==> Key(p) == k
    requires forall i :: 0 < i <= |q| ==> !Leaves(q[..i])
    ensures Entry(After(map[], q), k) == q
  {
    hide Key, Leaves;
    if q != [] {
      var init := q[..|q| - 1];
      assert forall i :: 0 < i <= |init| ==> init[..i] == q[..i];
      Accumulates(init, k);
      assert init + [q[|q| - 1]] == q[..|q|];
      assert q[..|q|] == q;
      assert !Leaves(q);
    }
  }

  // ---------- fragments of one datagram ----------

  lemma FragmentationIsSound(d: Packet, fs: seq<Packet>)
    requires Fragmentation(d, fs)
    ensures Sound(fs) && Finals(fs) == 1 && LatestFinal(fs) == fs[|fs| - 1]
    ensures EndOf(LatestFinal(fs)) == PayloadLen(d) && ExactCover(fs, PayloadLen(d))
    ensures forall p :: p in fs && Offset(p) == 0 ==> p == fs[0]
    ensures Offset(fs[0]) == 0
  {
    hide Bytes.Load16Be, Sum, Payload, LatestFinal, SumMatches;
    var n := |fs| - 1;
    SumTake(fs, n, PayloadLen);
    assert fs[..|fs|] == fs && fs[..0] == [];
    assert PayloadSum(fs[..0]) == 0 by { SumZero(fs[..0], PayloadLen); }
    SumPositions(fs, 0, n);
    assert Offset(fs[n]) >= n;
    SumTake(fs, n, FinalMark);
    SumZero(fs[..n], FinalMark);
    forall k | 0 < k <= n ensures Offset(fs[k]) > 0 {
      SumPositions(fs, 0, k);
    }
    ChainCovers(fs, PayloadLen, |fs|);
    FinalIsUnique(fs, LatestFinal(fs), fs[n]);
  }

  /** A proper part of the fragments, in whatever order, never passes the completion test. */
  lemma ProperPartStays(fs: seq<Packet>, q: seq<Packet>, r: seq<Packet>, n: int)
    requires Sound(fs) && Finals(fs) == 1 && EndOf(LatestFinal(fs)) == n == PayloadSum(fs)
    requires multiset(q + r) == multiset(fs) && r != []
    ensures !Leaves(q)
  {
    hide Offset, MoreFragments, PayloadLen, Sum, LatestFinal;
    PermutationKeeps(fs, q + r);
    FinalOfPermutation(fs, q + r);
    SumConcat(q, r, FinalMark);
    SumConcat(q, r, PayloadLen);
    FinalsNonNegative(q);
    FinalsNonNegative(r);
    assert forall p :: p in q || p in r ==> p in q + r;
    SumAtLeastLength(q, PayloadLen);
    SumAtLeastLength(r, PayloadLen);
    SumIsExact(fs);
    if Finals(q) == 1 {
      FinalIsUnique(q + r, LatestFinal(q + r), LatestFinal(q));
      assert EndOf(LatestFinal(q)) == n > PayloadSum(q) >= 0;
    }
  }

  lemma PiecesMakeThePayload(d: Packet, fs: seq<Packet>, b: seq<byte>)
    requires Fragmentation(d, fs) && |b| == HEADERS + PayloadLen(d) && ExactCover(fs, PayloadLen(d))
    requires forall p :: p in fs ==> CarriedBy(p, b)
    ensures Readable(d) && b[HEADERS..] == Payload(d)
  {
    hide Offset, MoreFragments, TotLen, Payload, Sum;
    assert PieceOf(d, fs[0]);
    forall j | 0 <= j < PayloadLen(d) ensures b[HEADERS + j] == Payload(d)[j] {
      assert Coverage(fs, PayloadLen, j) == 1;
      var i := CoveredByOne(fs, PayloadLen, j);
      var o := Offset(fs[i]);
      assert CarriedBy(fs[i], b) && PieceOf(d, fs[i]);
      assert b[HEADERS + j] == b[HEADERS + o..HEADERS + EndOf(fs[i])][j - o];
      assert Payload(d)[j] == Payload(d)[o..EndOf(fs[i])][j - o];
    }
  }

  /** The last arrival of an unpadded fragmentation brings out the datagram's payload in one piece. */
  lemma LastPartDelivers(d: Packet, fs: seq<Packet>, l: seq<Packet>, out: Outcome)
    requires Fragmentation(d, fs) && multiset(l) == multiset(fs) && Allowed(l, out) && Unpadded(fs[0])
    ensures out.Frame? && out.bytes[HEADERS..] == Payload(d)
  {
    hide Offset, MoreFragments, PayloadLen, TotLen, Payload, Sum, LatestFinal, Assemble, Sorted, Allowed, Fragmentation,
      CoveredOnce, Readable, Unpadded;
    FragmentationIsSound(d, fs);
    PermutationKeeps(fs, l);
    FinalOfPermutation(fs, l);
    CoverageOfPermutation(fs, l, PayloadLen, PayloadLen(d));
    assert UnpaddedStart(fs);
    FrameIffExactCover(l, out);
    DeliveredFrameIsExact(l, out.bytes);
    PiecesMakeThePayload(d, fs, out.bytes);
  }

  lemma FragmentationHasTwo(d: Packet, fs: seq<Packet>)
    requires Fragmentation(d, fs)
    ensures |fs| >= 2
  {
  }

  lemma PaddedChainIsRejected(s: seq<Packet>, first: Packet, n: nat)
    requires |s| >= 2 && Sorted(s) && Sound(s) && ExactCover(s, n)
    requires forall p :: p in s && Offset(p) == 0 ==> p == first
    requires !Unpadded(first)
    ensures Assemble(s) == if |first.bytes| > HEADERS + n then OutOfBounds else Rejected
  {
    hide Bytes.Load16Be, Sum, ExactCover;
    ContiguousIffExactCover(s, n);
    SumTake(s, |s| - 1, PayloadLen);
    assert s[..|s|] == s;
    assert s[..0] == [];
    assert PayloadSum(s[..0]) == 0 by { SumZero(s[..0], PayloadLen); }
    SumTake(s, 0, PayloadLen);
    assert s[0] in s && s[0] == first;
    assert Offset(s[1]) == PayloadLen(s[0]);
  }

  /** A padded opening fragment makes the contiguity test fail on the next one, or the copy of the
      whole container leave the buffer. */
  lemma PaddedStartNeverDelivers(d: Packet, fs: seq<Packet>, l: seq<Packet>, out: Outcome)
    requires Fragmentation(d, fs) && multiset(l) == multiset(fs) && Allowed(l, out) && !Unpadded(fs[0])
    ensures out == if |fs[0].bytes| > HEADERS + PayloadLen(d) then OutOfBounds else Rejected
  {
    hide Offset, MoreFragments, PayloadLen, TotLen, Payload, Sum, LatestFinal, Assemble, Sorted, Fragmentation,
      CoveredOnce, Readable, Unpadded;
    FragmentationIsSound(d, fs);
    PermutationKeeps(fs, l);
    ExactCoverCompletes(fs, PayloadLen(d));
    var s: seq<Packet> :| SortedPermutation(l, s) && |s| > 0 && out == Assemble(s);
    PermutationKeeps(fs, s);
    CoverageOfPermutation(fs, s, PayloadLen, PayloadLen(d));
    assert |fs| >= 2 by { FragmentationHasTwo(d, fs); }
    PaddedChainIsRejected(s, fs[0], PayloadLen(d));
  }

  lemma SharedPayload(b: Network.Frame, f: Network.Frame, n: nat)
    requires HEADERS + n <= |f| && b[HEADERS..] == f[HEADERS..HEADERS + n]
    ensures UdpLen(b) == UdpLen(f) && UdpDest(b) == UdpDest(f) && |b| == HEADERS + n
    ensures forall i :: HEADERS <= i < HEADERS + n ==> b[i] == f[i]
  {
    assert |b| == HEADERS + n;
    forall i | HEADERS <= i < HEADERS + n ensures b[i] == f[i] {
      assert b[HEADERS..][i - HEADERS] == f[HEADERS..HEADERS + n][i - HEADERS];
    }
  }

  /** Of a reassembled frame, the range handed over lies inside exactly when the UDP length fits. */
  lemma ReassembledRange(d: Packet, b: Network.Frame)
    requires Readable(d) && b[HEADERS..] == Payload(d)
    ensures RangeInside(b) <==> LengthFits(d)
  {
    hide Load16Be, RangeInside;
    SharedPayload(b, d.bytes, PayloadLen(d));
    RangeInsideIff(b);
  }

  /** The payload alone decides port, length and data, so a reassembled frame is routed like the
      frame that was never fragmented. */
  lemma PayloadDecidesRoute(cfg: Config, d: Packet, b: Network.Frame)
    requires Readable(d) && b[HEADERS..] == Payload(d)
    requires LengthFits(d) || Unpadded(d)
    ensures Route(cfg, b) == Route(cfg, d.bytes)
  {
    hide Load16Be;
    var f := d.bytes;
    SharedPayload(b, f, PayloadLen(d));
    if LengthFits(d) {
      assert UdpData(b) == b[UDP_HDR..HEADERS + UdpLen(f)] == f[UDP_HDR..HEADERS + UdpLen(f)] == UdpData(f);
    } else {
      assert b[UDP_HDR..] == f[UDP_HDR..];
    }
  }

  /** What comes out of the store is never refused. */
  lemma RouteIsNotBroken(cfg: Config, b: Network.Frame)
    ensures Route(cfg, b) != Broken
  {
  }

  // ---------- the theorem ----------

  lemma FragmentOutcome(cfg: Config, s: Store, p: Packet, v: Verdict) returns (out: Outcome)
    requires Reaches(cfg, p) && Judged(cfg, s, p, v)
    ensures Allowed(Entry(s, Key(p)) + [p], out) && v == FromStore(cfg, out)
  {
    hide Allowed, Bytes.Load16Be, Key, EtherType, Protocol, DstIP;
    out :| Allowed(Entry(s, Key(p)) + [p], out) && v == FromStore(cfg, out);
  }

  /** A datagram in one piece is refused if its UDP length leaves the frame, and routed otherwise. */
  lemma WholeIsRouted(cfg: Config, s: Store, d: Packet, whole: Verdict)
    requires Addressed(cfg, d) && Judged(cfg, s, d, whole)
    ensures whole == if UdpLen(d.bytes) + HEADERS <= |d.bytes| then Route(cfg, d.bytes) else Broken
  {
    hide Allowed, Route, Bytes.Load16Be, Key, EtherType, Protocol, DstIP;
  }

  lemma StaysMeansPending(l: seq<Packet>, out: Outcome)
    requires Allowed(l, out) && !Leaves(l)
    ensures out == Pending
  {
  }

  lemma CompletedLeaves(l: seq<Packet>)
    requires Completed(l)
    ensures Leaves(l)
  {
  }

  /** The reassembled frame b against the frame in one piece. */
  lemma ComparedWithWhole(cfg: Config, s: Store, d: Packet, b: Network.Frame, whole: Verdict)
    requires Addressed(cfg, d) && Judged(cfg, s, d, whole) && b[HEADERS..] == Payload(d)
    ensures LengthFits(d) ==> Route(cfg, b) == whole
    ensures Unpadded(d) ==> (Route(cfg, b) == whole <==> UdpLen(d.bytes) <= PayloadLen(d))
    ensures RangeInside(b) <==> LengthFits(d)
  {
    hide Load16Be, Route, RangeInside, Judged, IsUdp, DstIP, IsFragment;
    WholeIsRouted(cfg, s, d, whole);
    ReassembledRange(d, b);
    RouteIsNotBroken(cfg, b);
    if LengthFits(d) || Unpadded(d) { PayloadDecidesRoute(cfg, d, b); }
  }

  lemma SoundIsPositive(fs: seq<Packet>)
    requires Sound(fs)
    ensures forall p :: p in fs ==> PayloadLen(p) > 0
  {
  }

  lemma EntryIsThePartsSoFar(cfg: Config, s: Store, before: seq<Packet>, rest: seq<Packet>, d: Packet, fs: seq<Packet>)
    requires Key(d) !in s && Fragmentation(d, fs) && rest != []
    requires multiset(Parts(cfg, before, Key(d)) + rest) == multiset(fs)
    ensures Entry(After(s, Arrivals(cfg, before)), Key(d)) == Parts(cfg, before, Key(d))
    ensures !Leaves(Parts(cfg, before, Key(d)))
  {
    hide Key, Reaches, Leaves, Fragmentation, Sum, ExactCover, Sound, Completed, LatestFinal, PayloadLen, Arrivals,
      Only, After, Offset;
    var k, q := Key(d), Parts(cfg, before, Key(d));
    FragmentationIsSound(d, fs);
    ExactCoverCompletes(fs, PayloadLen(d)) by { SoundIsPositive(fs); }
    NonInterference(s, map[], Arrivals(cfg, before), k);
    OnlyHasKey(Arrivals(cfg, before), k);
    forall i | 0 <= i <= |q| ensures !Leaves(q[..i]) {
      assert q + rest == q[..i] + (q[i..] + rest);
      ProperPartStays(fs, q[..i], q[i..] + rest, PayloadLen(d));
    }
    assert q[..|q|] == q;
    Accumulates(q, k);
  }

  /** What one fragment of d brings out of the store, those in `before` having come first. */
  lemma PartOutcome(d: Packet, fs: seq<Packet>, before: seq<Packet>, p: Packet, rest: seq<Packet>, out: Outcome)
    requires Fragmentation(d, fs) && multiset(before + [p] + rest) == multiset(fs) && Allowed(before + [p], out)
    ensures rest != [] ==> out == Pending
    ensures rest == [] ==> Leaves(before + [p])
    ensures rest == [] && Unpadded(fs[0]) ==> out.Frame? && out.bytes[HEADERS..] == Payload(d)
    ensures rest == [] && !Unpadded(fs[0]) ==>
      out == if |fs[0].bytes| > HEADERS + PayloadLen(d) then OutOfBounds else Rejected
  {
    hide Sum, Fragmentation, Unpadded, Load16Be, Payload, Allowed, Leaves, Readable, ExactCover;
    var l := before + [p];
    FragmentationIsSound(d, fs);
    SoundIsPositive(fs);
    ExactCoverCompletes(fs, PayloadLen(d));
    if rest != [] {
      ProperPartStays(fs, l, rest, PayloadLen(d));
      StaysMeansPending(l, out);
    } else {
      assert l + rest == l;
      PermutationKeeps(fs, l);
      CompletedLeaves(l);
      if Unpadded(fs[0]) {
        LastPartDelivers(d, fs, l, out);
      } else {
        PaddedStartNeverDelivers(d, fs, l, out);
      }
    }
  }

  lemma ArrivalStep(cfg: Config, s: Store, ps: seq<Packet>, j: nat)
    requires j < |ps| && Reaches(cfg, ps[j])
    ensures After(s, Arrivals(cfg, ps[..j + 1])) == Next(After(s, Arrivals(cfg, ps[..j])), ps[j])
  {
    hide Reaches, Next;
    assert ps[..j + 1][..j] == ps[..j];
    var a := Arrivals(cfg, ps[..j]);
    assert (a + [ps[j]])[..|a|] == a;
  }

  /** Fragments of d delivered once each, in any order, among any other frames. Until the last of
      them nothing comes out. The last one brings out a frame with d's payload if and only if the opening
      fragment had no Ethernet padding; with padding the datagram is rejected, or the copy of the padded
      container leaves the buffer. Nothing stays behind. The frame is judged like the unfragmented one if
      d's UDP length fits; of an unpadded d exactly when that length does not exceed the payload, for the
      unfragmented frame is then refused. The data handed over lies inside the frame exactly if it fits. */
  lemma FragmentationIsTransparent(
      cfg: Config, s: Store, ps: seq<Packet>, d: Packet, fs: seq<Packet>, j: nat, v: Verdict, whole: Verdict)
    requires Key(d) !in s && Addressed(cfg, d) && Fragmentation(d, fs)
    requires multiset(Parts(cfg, ps, Key(d))) == multiset(fs)
    requires j < |ps| && Reaches(cfg, ps[j]) && Key(ps[j]) == Key(d)
    requires Judged(cfg, After(s, Arrivals(cfg, ps[..j])), ps[j], v)
    requires Judged(cfg, s, d, whole)
    ensures Parts(cfg, ps[j + 1..], Key(d)) != [] ==> v == Absorbed
    ensures Parts(cfg, ps[j + 1..], Key(d)) == [] && Unpadded(fs[0]) ==>
      && (LengthFits(d) ==> v == whole)
      && (Unpadded(d) ==> (v == whole <==> UdpLen(d.bytes) <= PayloadLen(d)))
      && exists b: Network.Frame ::
           v == Route(cfg, b) && b[HEADERS..] == Payload(d) && (RangeInside(b) <==> LengthFits(d))
    ensures Parts(cfg, ps[j + 1..], Key(d)) == [] && !Unpadded(fs[0]) ==>
      v == if |fs[0].bytes| > HEADERS + PayloadLen(d) then Undefined else Absorbed
    ensures Parts(cfg, ps[j + 1..], Key(d)) == [] ==> Key(d) !in After(s, Arrivals(cfg, ps[..j + 1]))
  {
    hide Sum, Fragmentation, Unpadded, Allowed, Leaves, Route, Parts, Arrivals, After, Load16Be, Judged, RangeInside;
    var before, rest := Parts(cfg, ps[..j], Key(d)), Parts(cfg, ps[j + 1..], Key(d));
    PartsSplit(cfg, ps, j, Key(d));
    assert before + [ps[j]] + rest == before + ([ps[j]] + rest);
    EntryIsThePartsSoFar(cfg, s, ps[..j], [ps[j]] + rest, d, fs);
    var out := FragmentOutcome(cfg, After(s, Arrivals(cfg, ps[..j])), ps[j], v);
    PartOutcome(d, fs, before, ps[j], rest, out);
    ArrivalStep(cfg, s, ps, j);
    if rest == [] && Unpadded(fs[0]) {
      ComparedWithWhole(cfg, s, d, out.bytes, whole);
    }
  }

  /** A datagram in one piece is handed over with exactly the bytes its UDP header announces, Ethernet
      padding left out; only an empty one on the L1 port is dropped. */
  lemma IntactIsHandedOver(cfg: Config, s: Store, d: Packet, v: Verdict)
    requires Intact(cfg, d) && Judged(cfg, s, d, v)
    ensures var data := Payload(d)[UDP_HEADER..UdpLen(d.bytes)];
      && (UdpDest(d.bytes) == cfg.l0Port ==> v == L0Mep(|data|, data))
      && (UdpDest(d.bytes) == cfg.creamPort != cfg.l0Port ==> v == if data == [] then EmptyL1 else L1Mep(|data|, data))
      && (UdpDest(d.bytes) != cfg.l0Port && UdpDest(d.bytes) != cfg.creamPort ==> v == UnknownPort)
  {
    hide Load16Be;
    WholeIsRouted(cfg, s, d, v);
    var f := d.bytes;
    assert UdpDataLength(f) == UdpLen(f) - UDP_HEADER;
    assert Payload(d) == f[HEADERS..HEADERS + PayloadLen(d)];
    assert f[HEADERS..HEADERS + PayloadLen(d)][UDP_HEADER..UdpLen(f)] == f[UDP_HDR..HEADERS + UdpLen(f)];
  }
}
