/** Concrete frames for which things do not go as one might expect. */
module FrameExamples {
  import opened Bytes
  import opened Network
  import opened Sums
  import opened Reassembly
  import opened Assembly
  import opened Copies
  import opened StoreRuns
  import opened FrameHandling
  import opened Transparency
  import opened Wire

  /** This machine is 10.0.0.2; UDP port 2 is the L0 port, port 3 the L1 port. */
  const CONFIG := Config(2, 3, 0x200_000a)

  function ExampleHeader(totLen: nat, lo: nat, more: bool): IpHeader {
    IpHeader(0x0800, totLen, 1, false, false, more, lo, 17, Address(10, 0, 0, 1), Address(10, 0, 0, 2))
  }

  /** Ethernet and IP headers for identification 1, from 10.0.0.1 to 10.0.0.2. */
  function ExampleHeaders(totLen: nat, lo: nat, more: bool): (h: seq<byte>)
    requires totLen < 0x1_0000 && lo < 0x1_0000 && lo % 8 == 0
    ensures |h| == HEADERS
  {
    [0, 0, 0, 0, 0, 0, 0, 0, 0, 0, 0, 0, 8, 0] +
    [0x45, 0, totLen / 0x100, totLen % 0x100, 0, 1, (if more then 0x20 else 0) + lo / 8 / 0x100, lo / 8 % 0x100,
      64, 17, 0, 0, 10, 0, 0, 1, 10, 0, 0, 2]
  }

  /** From port 1 to port 2, 32 bytes of data, announcing udpLen bytes in all. */
  function ExamplePayload(udpLen: byte): (b: seq<byte>)
    ensures |b| == 40
  {
    [0, 1, 0, 2, 0, udpLen, 0, 0] + seq(32, _ => 0)
  }

  lemma ExampleCarries(b: seq<byte>, totLen: nat, lo: nat, more: bool)
    requires totLen < 0x1_0000 && lo < 0x1_0000 && lo % 8 == 0 && ExampleHeaders(totLen, lo, more) <= b
    ensures Carries(b, ExampleHeader(totLen, lo, more))
  {
    var h := ExampleHeaders(totLen, lo, more);
    assert forall i :: 0 <= i < HEADERS ==> b[i] == h[i];
  }

  lemma ExampleFields(p: Packet, totLen: nat, lo: nat, more: bool, rest: seq<byte>)
    requires totLen < 0x1_0000 && lo < 0x1_0000 && lo % 8 == 0 && p.bytes == ExampleHeaders(totLen, lo, more) + rest
    ensures TotLen(p) == totLen && Offset(p) == lo && MoreFragments(p) == more
    ensures EtherType(p) == ETHERTYPE_IP && Protocol(p) == IPPROTO_UDP
    ensures SrcIP(p) == 0x100_000a && DstIP(p) == 0x200_000a && IpId(p) == 0x100
    ensures p.bytes[HEADERS..] == rest
  {
    hide Load16Be, Load16Le, Load32Le, Carries, ExampleHeaders, Offset, MoreFragments;
    ExampleCarries(p.bytes, totLen, lo, more);
    HeaderReadsBack(p, ExampleHeader(totLen, lo, more));
  }

  lemma ExampleUdp(b: Network.Frame, udpLen: byte)
    requires b[HEADERS..] == ExamplePayload(udpLen)
    ensures UdpLen(b) == udpLen && UdpDest(b) == 2
  {
    assert b[36] == b[HEADERS..][2] && b[37] == b[HEADERS..][3];
    assert b[38] == b[HEADERS..][4] && b[39] == b[HEADERS..][5];
  }

  lemma ExampleWhole(d: Packet, udpLen: byte)
    requires d.bytes == ExampleHeaders(60, 0, false) + ExamplePayload(udpLen)
    ensures Addressed(CONFIG, d) && PayloadLen(d) == 40 && Payload(d) == ExamplePayload(udpLen) && Unpadded(d)
    ensures UdpLen(d.bytes) == udpLen && UdpDest(d.bytes) == 2 && Key(d) == EXAMPLE_KEY
  {
    hide Load16Be, Load16Le, Load32Le, ExampleHeaders, ExamplePayload;
    ExampleFields(d, 60, 0, false, ExamplePayload(udpLen));
    ExampleUdp(d.bytes, udpLen);
    assert Payload(d) == d.bytes[HEADERS..][..40];
  }

  const EXAMPLE_KEY := GenerateFragmentID(0x100_000a, 0x100)

  /** A fragment of `len` bytes from byte lo on, with `rest` behind its headers. */
  predicate ExampleFragment(f: Packet, lo: nat, len: nat, more: bool, rest: seq<byte>) {
    lo <= 40 && len <= 40 && lo % 8 == 0 && f.bytes == ExampleHeaders(20 + len, lo, more) + rest
  }

  lemma ExampleKey(f: Packet)
    requires SrcIP(f) == 0x100_000a && IpId(f) == 0x100
    ensures Key(f) == EXAMPLE_KEY
  {
  }

  lemma ExampleFragmentFields(f: Packet, lo: nat, len: nat, more: bool, rest: seq<byte>)
    requires ExampleFragment(f, lo, len, more, rest) && (more || lo > 0)
    ensures Offset(f) == lo && PayloadLen(f) == len && MoreFragments(f) == more && TotLen(f) == 20 + len
    ensures Reaches(CONFIG, f) && Key(f) == EXAMPLE_KEY && |f.bytes| == HEADERS + |rest| && f.bytes[HEADERS..] == rest
    ensures Readable(f) <==> len <= |rest|
    ensures Unpadded(f) <==> len == |rest|
  {
    hide Load16Be, Load16Le, Load32Le, ExampleHeaders, Offset, MoreFragments, TotLen, Key;
    ExampleFields(f, 20 + len, lo, more, rest);
    ExampleKey(f);
  }

  // ---------- a datagram in two fragments ----------

  lemma ExamplePiece(d: Packet, f: Packet, udpLen: byte, lo: nat, hi: nat, more: bool, padding: seq<byte>)
    requires d.bytes == ExampleHeaders(60, 0, false) + ExamplePayload(udpLen)
    requires lo < hi <= 40 && lo % 8 == 0 && (more || lo > 0)
    requires ExampleFragment(f, lo, hi - lo, more, ExamplePayload(udpLen)[lo..hi] + padding)
    ensures PieceOf(d, f) && Offset(f) == lo && PayloadLen(f) == hi - lo && MoreFragments(f) == more
    ensures Reaches(CONFIG, f) && Key(f) == EXAMPLE_KEY && |f.bytes| == HEADERS + hi - lo + |padding|
    ensures Unpadded(f) <==> padding == []
  {
    hide Load16Be, Load16Le, Load32Le, ExampleHeaders, ExamplePayload, Offset, MoreFragments, TotLen,
      Key, Reaches;
    ExampleFields(d, 60, 0, false, ExamplePayload(udpLen));
    ExampleFields(f, 20 + hi - lo, lo, more, ExamplePayload(udpLen)[lo..hi] + padding);
    ExampleFragmentFields(f, lo, hi - lo, more, ExamplePayload(udpLen)[lo..hi] + padding);
    assert Payload(d) == d.bytes[HEADERS..][..40] == ExamplePayload(udpLen);
    assert Payload(f) == f.bytes[HEADERS..][..hi - lo] == ExamplePayload(udpLen)[lo..hi];
  }

  lemma ExampleIsFragmentation(d: Packet, f0: Packet, f1: Packet)
    requires PieceOf(d, f0) && PieceOf(d, f1) && MoreFragments(f0) && !MoreFragments(f1)
    requires Offset(f0) == 0 && Offset(f1) == PayloadLen(f0) && PayloadLen(f0) + PayloadLen(f1) == PayloadLen(d)
    ensures Fragmentation(d, [f0, f1])
  {
    hide Offset, MoreFragments, PayloadLen, PieceOf;
    var fs := [f0, f1];
    assert fs[..0] == [] && fs[..1] == [f0] && fs[..2] == fs;
    SumSingle(f0, PayloadLen);
    SumTake(fs, 1, PayloadLen);
  }

  /** The 40-byte datagram cut after 8 bytes. */
  lemma ExampleTwoFragments(udpLen: byte, padding: seq<byte>) returns (d: Packet, fs: seq<Packet>)
    ensures d.bytes == ExampleHeaders(60, 0, false) + ExamplePayload(udpLen)
    ensures Fragmentation(d, fs) && |fs| == 2 && (Unpadded(fs[0]) <==> padding == [])
    ensures |fs[0].bytes| == HEADERS + 8 + |padding|
    ensures forall p :: p in fs ==> Reaches(CONFIG, p) && Key(p) == EXAMPLE_KEY
  {
    hide ExampleHeaders, ExamplePayload, Fragmentation, PieceOf, Offset, MoreFragments, PayloadLen, Key,
      Reaches, Unpadded;
    var payload := ExamplePayload(udpLen);
    d := Packet(0, ExampleHeaders(60, 0, false) + payload);
    var f0 := Packet(1, ExampleHeaders(28, 0, true) + (payload[0..8] + padding));
    var f1 := Packet(2, ExampleHeaders(52, 8, false) + (payload[8..40] + []));
    fs := [f0, f1];
    ExamplePiece(d, f0, udpLen, 0, 8, true, padding);
    ExamplePiece(d, f1, udpLen, 8, 40, false, []);
    ExampleWhole(d, udpLen);
    ExampleIsFragmentation(d, f0, f1);
  }

  /** A 40-byte datagram cut after 8 bytes, its first fragment padded to the Ethernet minimum of 60
      bytes: the datagram is lost although both fragments arrive, in either order. */
  lemma PaddedFragmentationIsLost(out: Outcome, swapped: bool) returns (d: Packet, fs: seq<Packet>)
    ensures Intact(CONFIG, d) && Fragmentation(d, fs) && !Unpadded(fs[0])
    ensures Allowed(if swapped then [fs[1], fs[0]] else fs, out) ==> out == Rejected
  {
    hide ExampleHeaders, ExamplePayload, Fragmentation, Allowed, Unpadded, Addressed, PayloadLen, Payload, UdpLen;
    d, fs := ExampleTwoFragments(40, seq(18, _ => 0));
    ExampleWhole(d, 40);
    assert fs == [fs[0], fs[1]] && multiset([fs[1], fs[0]]) == multiset(fs);
    if Allowed(if swapped then [fs[1], fs[0]] else fs, out) {
      PaddedStartNeverDelivers(d, fs, if swapped then [fs[1], fs[0]] else fs, out);
    }
  }

  // ---------- UDP lengths that do not fit ----------

  lemma ShortRoute(b: Network.Frame)
    requires UdpDest(b) == 2 && UdpLen(b) == 7
    ensures Route(CONFIG, b).L0Mep? && Route(CONFIG, b).length == SIZE_T - 1
    ensures |b| < SIZE_T ==> !RangeInside(b)
  {
    hide UdpDest, UdpLen;
    assert UdpDataLength(b) == SIZE_T - 1;
  }

  /** An unfragmented frame to the L0 port with UDP length 7 passes every check: the length handed over
      wraps below zero. */
  lemma ShortUdpLengthPasses(s: Store, v: Verdict) returns (d: Packet)
    ensures UdpLen(d.bytes) == 7
    ensures Judged(CONFIG, s, d, v) ==> v.L0Mep? && v.length == SIZE_T - 1 && !RangeInside(d.bytes)
  {
    hide ExampleHeaders, ExamplePayload, Judged, Addressed, PayloadLen, Payload, Key, UdpLen, UdpDest,
      RangeInside, Route;
    d := Packet(0, ExampleHeaders(60, 0, false) + ExamplePayload(7));
    ExampleWhole(d, 7);
    ShortRoute(d.bytes);
    if Judged(CONFIG, s, d, v) { WholeIsRouted(CONFIG, s, d, v); }
  }

  lemma ExampleFirstStays(d: Packet, fs: seq<Packet>)
    requires Fragmentation(d, fs) && |fs| == 2 && forall p :: p in fs ==> Key(p) == EXAMPLE_KEY
    ensures Entry(After(map[], fs[..1]), EXAMPLE_KEY) == [fs[0]]
  {
    hide Fragmentation, Key, Leaves, Sum, LatestFinal, PayloadLen, ExactCover, Completed;
    FragmentationIsSound(d, fs);
    ExactCoverCompletes(fs, PayloadLen(d)) by { SoundIsPositive(fs); }
    assert fs[..1] == [fs[0]] && [fs[0]] + [fs[1]] == fs && [fs[0]][..0] == [];
    ProperPartStays(fs, [fs[0]], [fs[1]], PayloadLen(d));
    assert After(map[], [fs[0]][..0]) == map[];
    assert [] + [fs[0]] == [fs[0]];
  }

  lemma OverlongRoute(b: Network.Frame)
    requires UdpDest(b) == 2 && UdpLen(b) == 41 && |b| == HEADERS + 40
    ensures Route(CONFIG, b).L0Mep? && Route(CONFIG, b).length == 33 && |Route(CONFIG, b).data| == 32
  {
    hide UdpDest, UdpLen;
  }

  lemma OverlongIsDelivered(d: Packet, fs: seq<Packet>, v: Verdict)
    requires d.bytes == ExampleHeaders(60, 0, false) + ExamplePayload(41)
    requires Fragmentation(d, fs) && |fs| == 2 && Unpadded(fs[0])
    requires forall p :: p in fs ==> Reaches(CONFIG, p) && Key(p) == EXAMPLE_KEY
    requires Judged(CONFIG, After(map[], fs[..1]), fs[1], v)
    ensures v.L0Mep? && v.length == 33 && |v.data| == 32
  {
    hide ExampleHeaders, ExamplePayload, Fragmentation, Judged, PayloadLen, Payload, Key, Reaches, UdpLen,
      UdpDest, Unpadded,
      Allowed, After, Route, Addressed;
    var out := FragmentOutcome(CONFIG, After(map[], fs[..1]), fs[1], v);
    ExampleFirstStays(d, fs);
    assert [fs[0]] + [fs[1]] == fs;
    LastPartDelivers(d, fs, fs, out);
    ExampleWhole(d, 41);
    ExampleUdp(out.bytes, 41);
    OverlongRoute(out.bytes);
  }

  /** A datagram whose UDP length exceeds its payload by one byte is refused in one piece; in two fragments
      it is handed over with a length that leaves the frame. */
  lemma OverlongUdpLengthGetsThrough(v: Verdict, whole: Verdict) returns (d: Packet, fs: seq<Packet>)
    ensures Fragmentation(d, fs) && |fs| == 2 && UdpLen(d.bytes) == 41 && PayloadLen(d) == 40
    ensures forall p :: p in fs ==> Reaches(CONFIG, p) && Key(p) == EXAMPLE_KEY
    ensures Judged(CONFIG, map[], d, whole) ==> whole == Broken
    ensures Judged(CONFIG, After(map[], fs[..1]), fs[1], v) ==> v.L0Mep? && v.length == 33 && |v.data| == 32
  {
    hide ExampleHeaders, ExamplePayload, Fragmentation, Judged, Addressed, Payload, Key, Reaches, UdpDest,
      Unpadded, After,
      UdpLen, TotLen;
    d, fs := ExampleTwoFragments(41, []);
    ExampleWhole(d, 41);
    if Judged(CONFIG, map[], d, whole) { WholeIsRouted(CONFIG, map[], d, whole); }
    if Judged(CONFIG, After(map[], fs[..1]), fs[1], v) { OverlongIsDelivered(d, fs, v); }
  }

  // ---------- copies that leave their bounds ----------

  lemma LastIsForced(t: seq<Packet>, s: seq<Packet>)
    requires multiset(s) == multiset(t) && Sorted(s) && t != [] && |s| == |t|
    requires forall i, j :: 0 <= i < j < |t| ==> Offset(t[i]) < Offset(t[j])
    ensures s[|s| - 1] == t[|t| - 1]
  {
    hide Offset;
    var n := |t| - 1;
    assert t[n] in multiset(s) && s[n] in multiset(t);
    var i :| 0 <= i <= n && s[i] == t[n];
    var j :| 0 <= j <= n && t[j] == s[n];
  }

  lemma WithoutLast(s: seq<Packet>)
    requires s != []
    ensures multiset(s[..|s| - 1]) == multiset(s) - multiset{s[|s| - 1]}
  {
    assert s == s[..|s| - 1] + [s[|s| - 1]];
  }

  lemma SameFrontSameLast(s: seq<Packet>, t: seq<Packet>)
    requires s != [] && t != [] && s[..|s| - 1] == t[..|t| - 1] && s[|s| - 1] == t[|t| - 1]
    ensures s == t
  {
    assert s == s[..|s| - 1] + [s[|s| - 1]] && t == t[..|t| - 1] + [t[|t| - 1]];
  }

  /** Where no two offsets are equal there is one order only. */
  lemma {:induction false} OrderIsForced(t: seq<Packet>, s: seq<Packet>)
    requires multiset(s) == multiset(t) && Sorted(s)
    requires forall i, j :: 0 <= i < j < |t| ==> Offset(t[i]) < Offset(t[j])
    ensures s == t
    decreases |t|
  {
    hide Offset;
    assert |s| == |multiset(s)| && |multiset(t)| == |t|;
    if t != [] {
      LastIsForced(t, s);
      WithoutLast(s);
      WithoutLast(t);
      var s', t' := s[..|s| - 1], t[..|t| - 1];
      assert Sorted(s');
      OrderIsForced(t', s');
      SameFrontSameLast(s, t);
    }
  }

  lemma CompletedHasOneFinal(fs: seq<Packet>)
    requires Completed(fs)
    ensures Finals(fs) == 1
  {
  }

  /** One call allows nothing else, however the fragments were sorted. */
  lemma OnlyOneOutcome(fs: seq<Packet>, t: seq<Packet>, out: Outcome)
    requires Completed(fs) && multiset(t) == multiset(fs) && |t| > 0 && Allowed(fs, out)
    requires forall i, j :: 0 <= i < j < |t| ==> Offset(t[i]) < Offset(t[j])
    ensures out == Assemble(t)
  {
    hide Offset, Assemble, Completed;
    assert Finals(fs) == 1 by { CompletedHasOneFinal(fs); }
    var s: seq<Packet> :| SortedPermutation(fs, s) && |s| > 0 && out == Assemble(s);
    OrderIsForced(t, s);
  }

  lemma SumTwo(x: Packet, y: Packet, w: Packet -> int)
    ensures Sum([x, y], w) == w(x) + w(y)
  {
    assert [x, y][..1] == [x];
    SumSingle(x, w);
  }

  /** A fragment with MF and a final one behind it, not enough until both are there. */
  lemma TwoComplete(a: Packet, m: Packet)
    requires MoreFragments(a) && !MoreFragments(m) && EndOf(m) == PayloadLen(a) + PayloadLen(m)
    ensures Completed([a, m])
  {
    hide Offset, MoreFragments, PayloadLen, Sum;
    SumTwo(a, m, PayloadLen);
    SumTwo(a, m, FinalMark);
    assert LatestFinal([a, m]) == m;
  }

  /** Fragments with MF only wait in the store. */
  lemma NoFinalStays(q: seq<Packet>)
    requires forall p :: p in q ==> MoreFragments(p) && Key(p) == EXAMPLE_KEY
    ensures Entry(After(map[], q), EXAMPLE_KEY) == q
  {
    hide Key, MoreFragments, SumMatches;
    forall i | 0 < i <= |q| ensures !Leaves(q[..i]) {
      SumZero(q[..i], FinalMark);
    }
    Accumulates(q, EXAMPLE_KEY);
  }

  lemma EmptyCompletes(a: Packet, e: Packet, m: Packet)
    requires MoreFragments(a) && MoreFragments(e) && !MoreFragments(m)
    requires EndOf(m) == PayloadLen(a) + PayloadLen(e) + PayloadLen(m)
    ensures Completed([a, e, m])
  {
    hide Offset, MoreFragments, PayloadLen, Sum;
    SumTwo(a, e, PayloadLen);
    SumTwo(a, e, FinalMark);
    assert [a, e, m][..2] == [a, e];
    SumTake([a, e, m], 2, PayloadLen);
    SumTake([a, e, m], 2, FinalMark);
    assert [a, e, m][..3] == [a, e, m];
    assert LatestFinal([a, e, m]) == m;
  }

  lemma EmptyInsideFinal(a: Packet, e: Packet, m: Packet)
    requires Unpadded(a) && Readable(m) && Offset(a) == 0 && Offset(m) == 8 && Offset(e) == 16
    requires PayloadLen(a) == 8 && PayloadLen(m) == 16 && PayloadLen(e) == 0
    ensures Assemble([a, m, e]) == OutOfBounds
  {
    hide FragOff, Load16Be;
    assert AssembleRest([a, m, e], 1, a.bytes, 50) == OutOfBounds;
  }

  lemma EmptyFragmentUndefined(a: Packet, e: Packet, m: Packet, v: Verdict)
    requires Reaches(CONFIG, m) && Key(a) == Key(e) == Key(m) == EXAMPLE_KEY
    requires MoreFragments(a) && MoreFragments(e) && !MoreFragments(m) && Unpadded(a) && Readable(m)
    requires Offset(a) == 0 && Offset(m) == 8 && Offset(e) == 16
    requires PayloadLen(a) == 8 && PayloadLen(m) == 16 && PayloadLen(e) == 0
    requires Judged(CONFIG, After(map[], [a, e]), m, v)
    ensures v == Undefined
  {
    hide Judged, Reaches, Key, Offset, MoreFragments, PayloadLen, Readable, Unpadded, Allowed, Completed, After;
    NoFinalStays([a, e]);
    assert [a, e] + [m] == [a, e, m];
    EmptyCompletes(a, e, m);
    EmptyInsideFinal(a, e, m);
    var out := FragmentOutcome(CONFIG, After(map[], [a, e]), m, v);
    assert multiset([a, m, e]) == multiset([a, e, m]);
    OnlyOneOutcome([a, e, m], [a, m, e], out);
  }

  /** Two readable fragments, 24 bytes in all, and an empty one that starts inside the second: the buffer
      ends with the empty one, and the copy of the final one leaves it. No order of sorting helps. */
  lemma EmptyFragmentOverruns(v: Verdict) returns (fs: seq<Packet>)
    ensures |fs| == 3 && (forall p :: p in fs ==> Reaches(CONFIG, p) && Readable(p) && Key(p) == EXAMPLE_KEY)
    ensures UnpaddedStart(fs) && PayloadLen(fs[1]) == 0
    ensures Judged(CONFIG, After(map[], fs[..2]), fs[2], v) ==> v == Undefined
  {
    hide ExampleHeaders, Judged, Reaches, Key, Offset, MoreFragments, PayloadLen, Readable, Unpadded, TotLen, After;
    var a := Packet(1, ExampleHeaders(28, 0, true) + seq(8, _ => 0));
    var e := Packet(2, ExampleHeaders(20, 16, true) + seq(8, _ => 0));
    var m := Packet(3, ExampleHeaders(36, 8, false) + seq(16, _ => 0));
    fs := [a, e, m];
    ExampleFragmentFields(a, 0, 8, true, seq(8, _ => 0));
    ExampleFragmentFields(e, 16, 0, true, seq(8, _ => 0));
    ExampleFragmentFields(m, 8, 16, false, seq(16, _ => 0));
    assert fs[..2] == [a, e];
    if Judged(CONFIG, After(map[], fs[..2]), fs[2], v) { EmptyFragmentUndefined(a, e, m, v); }
  }

  lemma SecondEscapes(a: Packet, m: Packet)
    requires MoreFragments(a) && !MoreFragments(m) && Unpadded(a) && !Readable(m)
    requires Offset(a) == 0 && Offset(m) == 8 && PayloadLen(a) == 8 && PayloadLen(m) == 16
    ensures Completed([a, m]) && Assemble([a, m]) == OutOfBounds
  {
    hide FragOff, Load16Be;
    TwoComplete(a, m);
  }

  /** A fragment that announces 16 bytes and holds 8: the copy reads beyond its container. */
  lemma UnreadableFragmentEscapes(v: Verdict) returns (fs: seq<Packet>)
    ensures |fs| == 2 && (forall p :: p in fs ==> Reaches(CONFIG, p) && Key(p) == EXAMPLE_KEY)
    ensures UnpaddedStart(fs) && !Readable(fs[1])
    ensures Judged(CONFIG, After(map[], fs[..1]), fs[1], v) ==> v == Undefined
  {
    hide ExampleHeaders, Judged, Reaches, Key, Offset, MoreFragments, PayloadLen, Readable, Unpadded, Allowed,
      Completed, TotLen,
      After;
    var a := Packet(1, ExampleHeaders(28, 0, true) + seq(8, _ => 0));
    var m := Packet(2, ExampleHeaders(36, 8, false) + seq(8, _ => 0));
    fs := [a, m];
    ExampleFragmentFields(a, 0, 8, true, seq(8, _ => 0));
    ExampleFragmentFields(m, 8, 16, false, seq(8, _ => 0));
    SecondEscapes(a, m);
    assert fs[..1] == [a] && [a] + [m] == fs;
    NoFinalStays(fs[..1]);
    if Judged(CONFIG, After(map[], fs[..1]), fs[1], v) {
      var out := FragmentOutcome(CONFIG, After(map[], fs[..1]), fs[1], v);
      OnlyOneOutcome(fs, fs, out);
    }
  }

  lemma FirstEscapes(a: Packet, m: Packet)
    requires MoreFragments(a) && !MoreFragments(m) && |a.bytes| == 60
    requires Offset(a) == 0 && Offset(m) == 8 && PayloadLen(a) == 8 && PayloadLen(m) == 8
    ensures Completed([a, m]) && Assemble([a, m]) == OutOfBounds
  {
    hide FragOff, Load16Be;
    TwoComplete(a, m);
  }

  /** A 16-byte datagram cut in half, its first fragment padded to 60 bytes: the copy of that container
      leaves the buffer of 50. */
  lemma PaddedOpeningOverruns(v: Verdict) returns (fs: seq<Packet>)
    ensures |fs| == 2 && (forall p :: p in fs ==> Reaches(CONFIG, p) && Readable(p) && Key(p) == EXAMPLE_KEY)
    ensures |fs[0].bytes| == 60
    ensures Judged(CONFIG, After(map[], fs[..1]), fs[1], v) ==> v == Undefined
  {
    hide ExampleHeaders, Judged, Reaches, Key, Offset, MoreFragments, PayloadLen, Readable, Allowed, Completed,
      TotLen, After;
    var a := Packet(1, ExampleHeaders(28, 0, true) + seq(26, _ => 0));
    var m := Packet(2, ExampleHeaders(28, 8, false) + seq(8, _ => 0));
    fs := [a, m];
    ExampleFragmentFields(a, 0, 8, true, seq(26, _ => 0));
    ExampleFragmentFields(m, 8, 8, false, seq(8, _ => 0));
    FirstEscapes(a, m);
    assert fs[..1] == [a] && [a] + [m] == fs;
    NoFinalStays(fs[..1]);
    if Judged(CONFIG, After(map[], fs[..1]), fs[1], v) {
      var out := FragmentOutcome(CONFIG, After(map[], fs[..1]), fs[1], v);
      OnlyOneOutcome(fs, fs, out);
    }
  }
}
