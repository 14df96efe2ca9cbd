/** Every datagram can be cut anywhere RFC 791 allows, and what comes of it is a fragmentation in the sense
    of the results on reassembly. */
module Cutting {
  import opened Bytes
  import opened Network
  import opened Sums
  import opened Reassembly
  import opened StoreRuns
  import opened FrameHandling
  import opened Transparency
  import opened Wire

  /** Where d is cut: at increasing multiples of eight bytes between its ends. */
  predicate Cuts(d: Packet, cuts: seq<nat>) {
    && |cuts| >= 3 && cuts[0] == 0 && cuts[|cuts| - 1] == PayloadLen(d)
    && (forall i :: 0 <= i < |cuts| - 1 ==> cuts[i] < cuts[i + 1] && cuts[i] % 8 == 0)
  }

  function TwoBytes(v: nat): seq<byte>
    requires v < 0x1_0000
  {
    [v / 0x100, v % 0x100]
  }

  /** The header of the piece from lo to hi: that of d with its own length, MF flag and offset. */
  function PieceHeader(h: IpHeader, lo: nat, hi: nat, more: bool): IpHeader
    requires lo <= hi
  {
    h.(totLen := 20 + hi - lo, moreFragments := more, offset := lo)
  }

  lemma PieceBounds(d: Packet, h: IpHeader, lo: nat, hi: nat)
    requires Readable(d) && lo < hi <= PayloadLen(d) && Carries(d.bytes, h) && lo % 8 == 0
    ensures Encodable(PieceHeader(h, lo, hi, hi < PayloadLen(d)))
    ensures FlagsAndOffset(PieceHeader(h, lo, hi, hi < PayloadLen(d))) < 0x1_0000
  {
    hide Load16Be;
    assert PayloadLen(d) <= 65515;
  }

  /** The piece as a frame, with Ethernet padding up to the 42 bytes every frame has. */
  function Piece(d: Packet, h: IpHeader, lo: nat, hi: nat, address: nat): (f: Packet)
    requires Readable(d) && lo < hi <= PayloadLen(d) && lo % 8 == 0 && Carries(d.bytes, h)
  {
    var b := d.bytes;
    var g := PieceHeader(h, lo, hi, hi < PayloadLen(d));
    PieceBounds(d, h, lo, hi);
    Packet(address,
      b[..16] + TwoBytes(g.totLen) + b[18..20] + TwoBytes(FlagsAndOffset(g)) + b[22..34]
      + (Payload(d)[lo..hi] + if hi - lo < 8 then seq(8 - (hi - lo), _ => 0) else []))
  }

  lemma PieceCarries(d: Packet, h: IpHeader, lo: nat, hi: nat, address: nat)
    requires Readable(d) && lo < hi <= PayloadLen(d) && lo % 8 == 0 && Carries(d.bytes, h)
    ensures var f := Piece(d, h, lo, hi, address);
      && Carries(f.bytes, PieceHeader(h, lo, hi, hi < PayloadLen(d)))
      && |f.bytes| == HEADERS + (if hi - lo < 8 then 8 else hi - lo)
      && |f.bytes| >= HEADERS + (hi - lo) && f.bytes[HEADERS..HEADERS + (hi - lo)] == Payload(d)[lo..hi]
  {
    hide TotLen, FlagsAndOffset, PayloadLen, Payload;
    PieceBounds(d, h, lo, hi);
    var f, b := Piece(d, h, lo, hi, address), d.bytes;
    var g := PieceHeader(h, lo, hi, hi < PayloadLen(d));
    var rest := Payload(d)[lo..hi] + if hi - lo < 8 then seq(8 - (hi - lo), _ => 0) else [];
    assert f.bytes[12] == b[12] && f.bytes[13] == b[13];
    assert f.bytes[16] == g.totLen / 0x100 && f.bytes[17] == g.totLen % 0x100;
    assert f.bytes[18] == b[18] && f.bytes[19] == b[19];
    assert f.bytes[20] == FlagsAndOffset(g) / 0x100 && f.bytes[21] == FlagsAndOffset(g) % 0x100;
    assert forall k :: 22 <= k < 34 ==> f.bytes[k] == b[k];
    assert f.bytes[HEADERS..] == rest;
    assert f.bytes[HEADERS..HEADERS + (hi - lo)] == rest[..hi - lo];
  }

  lemma PieceIsPiece(cfg: Config, d: Packet, h: IpHeader, lo: nat, hi: nat, address: nat)
    requires Addressed(cfg, d) && lo < hi <= PayloadLen(d) && lo % 8 == 0 && Carries(d.bytes, h)
    requires lo > 0 || hi < PayloadLen(d)
    ensures var f := Piece(d, h, lo, hi, address);
      && PieceOf(d, f) && Offset(f) == lo && PayloadLen(f) == hi - lo
      && (MoreFragments(f) <==> hi < PayloadLen(d))
      && Reaches(cfg, f) && Key(f) == Key(d)
      && (hi - lo >= 8 ==> Unpadded(f))
  {
    hide Load16Be, Load16Le, Load32Le, Piece, Carries, Offset, MoreFragments, Key, IsFragment, TotLen, SrcIP,
      DstIP, IpId, EtherType, Protocol;
    PieceCarries(d, h, lo, hi, address);
    var f := Piece(d, h, lo, hi, address);
    HeaderReadsBack(d, h);
    HeaderReadsBack(f, PieceHeader(h, lo, hi, hi < PayloadLen(d)));
    KeyOnTheWire(d, f, h, PieceHeader(h, lo, hi, hi < PayloadLen(d)));
    assert Payload(f) == f.bytes[HEADERS..HEADERS + (hi - lo)];
  }

  lemma {:induction false} CutsGrowFrom(d: Packet, cuts: seq<nat>, i: nat)
    requires Cuts(d, cuts) && i < |cuts|
    ensures cuts[i] <= PayloadLen(d) && (i < |cuts| - 1 ==> cuts[i] < PayloadLen(d))
    decreases |cuts| - i
  {
    hide PayloadLen;
    if i < |cuts| - 1 { CutsGrowFrom(d, cuts, i + 1); }
  }

  lemma CutsGrow(d: Packet, cuts: seq<nat>)
    requires Cuts(d, cuts)
    ensures forall i :: 0 <= i < |cuts| ==> cuts[i] <= PayloadLen(d) && (i < |cuts| - 1 ==> cuts[i] < PayloadLen(d))
  {
    hide PayloadLen;
    forall i | 0 <= i < |cuts| ensures cuts[i] <= PayloadLen(d) && (i < |cuts| - 1 ==> cuts[i] < PayloadLen(d)) {
      CutsGrowFrom(d, cuts, i);
    }
  }

  function Pieces(d: Packet, h: IpHeader, cuts: seq<nat>): (fs: seq<Packet>)
    requires Readable(d) && Carries(d.bytes, h) && Cuts(d, cuts)
    ensures |fs| == |cuts| - 1
  {
    CutsGrow(d, cuts);
    seq(|cuts| - 1, i requires 0 <= i < |cuts| - 1 => Piece(d, h, cuts[i], cuts[i + 1], i))
  }

  lemma {:induction false} PiecesChain(d: Packet, fs: seq<Packet>, cuts: seq<nat>, k: nat)
    requires Cuts(d, cuts) && |fs| == |cuts| - 1 && k <= |fs|
    requires forall i :: 0 <= i < |fs| ==> PayloadLen(fs[i]) == cuts[i + 1] - cuts[i]
    ensures PayloadSum(fs[..k]) == cuts[k]
  {
    hide PayloadLen, Sum;
    if k == 0 {
      assert fs[..0] == [];
      SumZero(fs[..0], PayloadLen);
    } else {
      PiecesChain(d, fs, cuts, k - 1);
      SumTake(fs, k - 1, PayloadLen);
    }
  }

  /** What the i-th piece is. */
  ghost predicate PieceAt(cfg: Config, d: Packet, f: Packet, lo: nat, hi: nat) {
    && PieceOf(d, f) && Offset(f) == lo && EndOf(f) == hi && (MoreFragments(f) <==> hi < PayloadLen(d))
    && Reaches(cfg, f) && Key(f) == Key(d) && (hi - lo >= 8 ==> Unpadded(f))
  }

  lemma PiecesAreThere(cfg: Config, d: Packet, h: IpHeader, cuts: seq<nat>, i: nat)
    requires Addressed(cfg, d) && Carries(d.bytes, h) && Cuts(d, cuts) && i < |cuts| - 1
    ensures PieceAt(cfg, d, Pieces(d, h, cuts)[i], cuts[i], cuts[i + 1])
  {
    hide PayloadLen, Piece, PieceOf, Offset, MoreFragments, Key, Reaches, Unpadded, Carries, IsFragment, IsUdp, DstIP;
    CutsGrow(d, cuts);
    assert i > 0 ==> cuts[i - 1] < cuts[i];
    PieceIsPiece(cfg, d, h, cuts[i], cuts[i + 1], i);
  }

  lemma FirstIsUnpadded(cfg: Config, d: Packet, f: Packet, cuts: seq<nat>)
    requires Cuts(d, cuts) && PieceAt(cfg, d, f, cuts[0], cuts[1])
    ensures Unpadded(f)
  {
    hide PayloadLen, PieceOf, Offset, MoreFragments, Key, Reaches, Unpadded;
    assert cuts[1] % 8 == 0;
  }

  /** Such pieces, one after the other, are a fragmentation. */
  lemma PiecesInARow(cfg: Config, d: Packet, fs: seq<Packet>, cuts: seq<nat>)
    requires Cuts(d, cuts) && |fs| == |cuts| - 1
    requires forall i :: 0 <= i < |fs| ==> PieceAt(cfg, d, fs[i], cuts[i], cuts[i + 1])
    ensures Fragmentation(d, fs)
  {
    hide PayloadLen, PieceOf, Offset, MoreFragments, Key, Reaches, Unpadded, Sum;
    CutsGrow(d, cuts);
    forall i | 0 <= i < |fs|
      ensures PieceOf(d, fs[i]) && (MoreFragments(fs[i]) <==> i < |fs| - 1)
      ensures PayloadLen(fs[i]) == cuts[i + 1] - cuts[i] && Offset(fs[i]) == cuts[i]
    {
      assert PieceAt(cfg, d, fs[i], cuts[i], cuts[i + 1]);
    }
    forall k | 0 <= k <= |fs| ensures PayloadSum(fs[..k]) == cuts[k] { PiecesChain(d, fs, cuts, k); }
    assert fs[..|fs|] == fs;
  }

  /** For every datagram for this machine and every way to cut it: the pieces are a fragmentation of it, all
      reach the store under its key, and the first is unpadded. */
  lemma EveryCutIsAFragmentation(cfg: Config, d: Packet, h: IpHeader, cuts: seq<nat>)
    requires Addressed(cfg, d) && Carries(d.bytes, h) && Cuts(d, cuts)
    ensures Fragmentation(d, Pieces(d, h, cuts)) && Unpadded(Pieces(d, h, cuts)[0])
    ensures forall i :: 0 <= i < |cuts| - 1 ==> PieceAt(cfg, d, Pieces(d, h, cuts)[i], cuts[i], cuts[i + 1])
  {
    hide PayloadLen, PieceAt, Pieces, Unpadded, Carries, Fragmentation, IsUdp, DstIP, IsFragment, TotLen;
    var fs := Pieces(d, h, cuts);
    forall i | 0 <= i < |fs| ensures PieceAt(cfg, d, fs[i], cuts[i], cuts[i + 1]) {
      PiecesAreThere(cfg, d, h, cuts, i);
    }
    PiecesInARow(cfg, d, fs, cuts);
    FirstIsUnpadded(cfg, d, fs[0], cuts);
  }
}
