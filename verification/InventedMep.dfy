/** Multi Event Packets: a block of fragments found by walking their lengths, and the synthetic
    blocks the farm derives from the L0TP one for L1, L2 and NSTD. */
module InventedMeps {
  import opened Bits
  import opened Bytes
  import opened Network

  const MEP_HEADER := 8
  const FRAGMENT_HEADER := 8
  const NSTD_DATA_SIZE := 4  // sizeof(uint32_t)

  /** The block header; `mepLength` is a 16-bit field. */
  datatype MepHeader =
    MepHeader(firstEventNum: nat, sourceID: nat, mepLength: nat, eventCount: nat, sourceSubID: nat)

  /** A received MEP: its header and the whole block, fragments starting at byte 8. */
  datatype Mep = Mep(header: MepHeader, data: seq<byte>)

  datatype Walked = Stuck | Starts(at: seq<nat>)

  /** Reads n fragments from `at` on, each as long as its first 16 bits say. Gives where each starts
      and, last, where they end. */
  function Walk(b: seq<byte>, at: nat, n: nat): Walked
    decreases n
  {
    if n == 0 then Starts([at])
    else if at + FRAGMENT_HEADER > |b| then Stuck
    else
      var length := Load16Le(b, at);
      if length < FRAGMENT_HEADER || at + length > |b| then Stuck
      else match Walk(b, at + length, n - 1)
        case Stuck => Stuck
        case Starts(rest) => Starts([at] + rest)
  }

  lemma {:induction false} WalkStays(b: seq<byte>, at: nat, n: nat)
    requires Walk(b, at, n).Starts?
    ensures |Walk(b, at, n).at| == n + 1
    ensures forall i :: 0 <= i < n ==> Walk(b, at, n).at[i] + FRAGMENT_HEADER <= |b|
    decreases n
  {
    if n > 0 {
      WalkStays(b, at + Load16Le(b, at), n - 1);
    }
  }

  predicate WellFormed(m: Mep) {
    m.header.eventCount < 0x1_0000 && Walk(m.data, MEP_HEADER, m.header.eventCount).Starts?
  }

  /** Where the i-th fragment header of a received MEP is. */
  function FragmentAt(m: Mep, i: nat): (at: nat)
    requires WellFormed(m) && i < m.header.eventCount
    ensures at + FRAGMENT_HEADER <= |m.data|
  {
    WalkStays(m.data, MEP_HEADER, m.header.eventCount);
    Walk(m.data, MEP_HEADER, m.header.eventCount).at[i]
  }

  lemma WalkStarts(b: seq<byte>, at: nat, n: nat)
    requires Walk(b, at, n).Starts? && |Walk(b, at, n).at| > 0
    ensures Walk(b, at, n).at[0] == at
  {
  }

  lemma {:induction false} WalkSteps(b: seq<byte>, at: nat, n: nat, i: nat)
    requires Walk(b, at, n).Starts? && |Walk(b, at, n).at| == n + 1 && i < n
    ensures var w := Walk(b, at, n).at;
      w[0] == at && w[i] + 2 <= |b| && w[i + 1] == w[i] + Load16Le(b, w[i]) && 8 <= w[i + 1] - w[i] && w[i + 1] <= |b|
    decreases n
  {
    hide Load16Le;
    var next := at + Load16Le(b, at);
    WalkStays(b, next, n - 1);
    if i > 0 {
      WalkSteps(b, next, n - 1, i - 1);
    } else {
      WalkStarts(b, next, n - 1);
    }
  }

  /** The fragments of a received MEP follow each other from byte 8 on, each as long as its first 16 bits
      say, and stay inside the block. */
  lemma FragmentsInARow(m: Mep, i: nat)
    requires WellFormed(m) && i < m.header.eventCount
    ensures FragmentAt(m, 0) == 8
    ensures var at := FragmentAt(m, i);
      && at + Load16Le(m.data, at) <= |m.data| && Load16Le(m.data, at) >= 8
      && (i + 1 < m.header.eventCount ==> FragmentAt(m, i + 1) == at + Load16Le(m.data, at))
  {
    hide Load16Le, Walk;
    WalkStays(m.data, 8, m.header.eventCount);
    WalkSteps(m.data, 8, m.header.eventCount, i);
  }

  /** The reader's side: walk as many fragments as the header counts; they must end where the header
      says the block ends. */
  function Parse(header: MepHeader, block: seq<byte>): Walked {
    match Walk(block, MEP_HEADER, header.eventCount)
    case Stuck => Stuck
    case Starts(at) => if at != [] && at[|at| - 1] == header.mepLength then Starts(at) else Stuck
  }

  // ---------- equally spaced fragments ----------

  /** Start of the i-th of equally long fragments. */
  function Rung(at: nat, i: nat, length: nat): nat {
    if i == 0 then at else Rung(at, i - 1, length) + length
  }

  lemma {:induction false} RungIs(at: nat, i: nat, length: nat)
    ensures Rung(at, i, length) == at + i * length
  {
    if i > 0 {
      RungIs(at, i - 1, length);
      assert i * length == (i - 1) * length + length;
    }
  }

  lemma {:induction false} RungsApart(at: nat, i: nat, j: nat, length: nat)
    requires i < j
    ensures Rung(at, i, length) + length <= Rung(at, j, length)
    decreases j
  {
    if i + 1 < j { RungsApart(at, i, j - 1, length); }
  }

  lemma {:induction false} WalkLadder(b: seq<byte>, at: nat, i: nat, n: nat, length: nat)
    requires i <= n && FRAGMENT_HEADER <= length && Rung(at, n, length) <= |b|
    requires forall k :: 0 <= k < n ==> Rung(at, k, length) + 2 <= |b| && Load16Le(b, Rung(at, k, length)) == length
    ensures var w := Walk(b, Rung(at, i, length), n - i);
      && w.Starts? && |w.at| == n - i + 1
      && forall k :: i <= k <= n ==> w.at[k - i] == Rung(at, k, length)
    decreases n - i
  {
    hide Load16Le;
    if i < n {
      RungsApart(at, i, n, length);
      assert Rung(at, i + 1, length) == Rung(at, i, length) + length;
      WalkLadder(b, at, i + 1, n, length);
    }
  }

  // ---------- patching a fragment header ----------

  /** The eight bytes at p are those at q of the source with the low 16 bits replaced. */
  ghost predicate Patched(b: seq<byte>, p: nat, source: seq<byte>, q: nat, length: nat) {
    && p + FRAGMENT_HEADER <= |b| && q + FRAGMENT_HEADER <= |source|
    && Load16Le(b, p) == length
    && b[p + 2..p + FRAGMENT_HEADER] == source[q + 2..q + FRAGMENT_HEADER]
  }

  lemma SameBytesSamePatch(b: seq<byte>, c: seq<byte>, p: nat, r: nat, source: seq<byte>, q: nat, length: nat)
    requires Patched(b, p, source, q, length) && r + FRAGMENT_HEADER <= |c|
    requires c[r..r + FRAGMENT_HEADER] == b[p..p + FRAGMENT_HEADER]
    ensures Patched(c, r, source, q, length)
  {
    assert c[r] == c[r..r + FRAGMENT_HEADER][0] && c[r + 1] == c[r..r + FRAGMENT_HEADER][1];
    assert b[p] == b[p..p + FRAGMENT_HEADER][0] && b[p + 1] == b[p..p + FRAGMENT_HEADER][1];
    assert c[r + 2..r + FRAGMENT_HEADER] == c[r..r + FRAGMENT_HEADER][2..];
    assert b[p + 2..p + FRAGMENT_HEADER] == b[p..p + FRAGMENT_HEADER][2..];
  }

  /** What the 16-bit patch stores: the mask clears all of a 16-bit word. */
  function Patched16(x: nat, length: nat): nat { BitOr(BitAnd(x, 0xffff_0000) % 0x1_0000, length) }

  /** What the 32-bit patch stores. */
  function Patched32(x: nat, length: nat): nat { BitOr(BitAnd(x, 0xffff_0000), length) }

  lemma Patched16IsLength(x: nat, length: nat)
    requires x < 0x1_0000
    ensures Patched16(x, length) == length
  {
    Shift16(0);
    Shift16(0xffff);
    AndHighMask(0, x, 0xffff, 16);
    OrZero(length);
  }

  /** A length of 16 bits replaces the low half and leaves the high one alone. Of a longer one the low half
      alone is stored, and its high half is or-ed into the word's. */
  lemma Patched32ReplacesLow16(x: nat, length: nat)
    requires x < 0x1_0000_0000 && length < 0x1_0000_0000
    ensures Patched32(x, length) == BitOr(x / 0x1_0000, length / 0x1_0000) * 0x1_0000 + length % 0x1_0000
    ensures length < 0x1_0000 ==> Patched32(x, length) == x / 0x1_0000 * 0x1_0000 + length
    ensures Patched32(x, length) % 0x1_0000 == length <==> length < 0x1_0000
  {
    hide BitOr, BitAnd;
    ReplaceLow16(x, length);
  }

  /** Stores a 16-bit word. */
  method Store16Le(buffer: array<byte>, at: nat, v: nat)
    requires at + 2 <= buffer.Length && v < 0x1_0000
    modifies buffer
    ensures Load16Le(buffer[..], at) == v
    ensures forall i :: 0 <= i < buffer.Length && !(at <= i < at + 2) ==> buffer[i] == old(buffer[i])
  {
    buffer[at], buffer[at + 1] := v % 0x100, v / 0x100;
  }

  /** Stores a 32-bit word: its low half, then its high half. */
  method Store32Le(buffer: array<byte>, at: nat, v: nat)
    requires at + 4 <= buffer.Length && v < 0x1_0000_0000
    modifies buffer
    ensures Load16Le(buffer[..], at) == v % 0x1_0000 && Load16Le(buffer[..], at + 2) == v / 0x1_0000
    ensures forall i :: 0 <= i < buffer.Length && !(at <= i < at + 4) ==> buffer[i] == old(buffer[i])
  {
    Store16Le(buffer, at, v % 0x1_0000);
    Store16Le(buffer, at + 2, v / 0x1_0000);
  }

  lemma HalvesOfWord(b: seq<byte>, at: nat)
    requires at + 4 <= |b|
    ensures Load32Le(b, at) / 0x1_0000 == Load16Le(b, at + 2) && Load32Le(b, at) % 0x1_0000 == Load16Le(b, at)
  {
    assert Load32Le(b, at) == Load16Le(b, at + 2) * 0x1_0000 + Load16Le(b, at);
  }

  lemma SameLoadSameBytes(b: seq<byte>, p: nat, c: seq<byte>, q: nat)
    requires p + 2 <= |b| && q + 2 <= |c| && Load16Le(b, p) == Load16Le(c, q)
    ensures b[p] == c[q] && b[p + 1] == c[q + 1]
  {
  }

  /** Copies one fragment header and puts the new length into it. */
  method CopyHeader(buffer: array<byte>, at: nat, source: seq<byte>, from: nat, length: nat, wide: bool)
    requires at + FRAGMENT_HEADER <= buffer.Length && from + FRAGMENT_HEADER <= |source| && length < 0x1_0000
    modifies buffer
    ensures Patched(buffer[..], at, source, from, length)
    ensures forall i :: 0 <= i < buffer.Length && !(at <= i < at + FRAGMENT_HEADER) ==> buffer[i] == old(buffer[i])
  {
    hide Load16Le, Load32Le, Patched16, Patched32;
    CopyInto(buffer, at, source[from..from + FRAGMENT_HEADER]);
    ghost var copied := buffer[..];
    assert copied[at..at + FRAGMENT_HEADER] == source[from..from + FRAGMENT_HEADER];
    forall i | 2 <= i < FRAGMENT_HEADER ensures copied[at + i] == source[from..][i] {
      assert copied[at + i] == copied[at..at + FRAGMENT_HEADER][i];
    }
    if wide {
      var temp := Load32Le(buffer[..], at);
      HalvesOfWord(buffer[..], at);
      Patched32ReplacesLow16(temp, length);
      Store32Le(buffer, at, Patched32(temp, length));
      SameLoadSameBytes(buffer[..], at + 2, copied, at + 2);
    } else {
      var temp := Load16Le(buffer[..], at);
      Patched16IsLength(temp, length);
      Store16Le(buffer, at, Patched16(temp, length));
    }
    assert buffer[at + 2] == copied[at + 2] && buffer[at + 3] == copied[at + 3];
    forall i | 2 <= i < FRAGMENT_HEADER ensures buffer[..][at..][i] == source[from..][i] {
      assert buffer[at + i] == copied[at + i];
    }
    assert buffer[..][at + 2..at + FRAGMENT_HEADER] == source[from + 2..from + FRAGMENT_HEADER];
  }

  // ---------- the builder ----------

  /** The header of an invented MEP. */
  function InventedHeader(m: Mep, sourceID: nat, blockLength: nat): MepHeader {
    MepHeader(m.header.firstEventNum, sourceID, blockLength % 0x1_0000, m.header.eventCount, 0)
  }

  /** A block of as many fragments as m has, each `length` bytes long, with m's fragment headers
      except for the length. What follows each header is not written and so not constrained. */
  ghost predicate Invented(m: Mep, length: nat, block: seq<byte>)
    requires WellFormed(m)
  {
    && |block| == Rung(MEP_HEADER, m.header.eventCount, length)
    && forall i :: 0 <= i < m.header.eventCount ==>
         Patched(block, Rung(MEP_HEADER, i, length), m.data, FragmentAt(m, i), length)
  }

  method BlockLength(mepFactor: nat, length: nat) returns (n: nat)
    ensures n == Rung(MEP_HEADER, mepFactor, length) == 8 + mepFactor * length
  {
    RungIs(MEP_HEADER, mepFactor, length);
    n := mepFactor * length + MEP_HEADER;
  }

  lemma FirstRung(length: nat)
    ensures Rung(MEP_HEADER, 0, length) == MEP_HEADER
  {
  }

  lemma KeepsPatch(b: seq<byte>, c: seq<byte>, p: nat, at: nat, source: seq<byte>, q: nat, length: nat)
    requires |b| == |c| && p + FRAGMENT_HEADER <= at && Patched(b, p, source, q, length)
    requires forall i :: 0 <= i < |b| && !(at <= i < at + FRAGMENT_HEADER) ==> c[i] == b[i]
    ensures Patched(c, p, source, q, length)
  {
    assert c[p..p + FRAGMENT_HEADER] == b[p..p + FRAGMENT_HEADER];
    SameBytesSamePatch(b, c, p, p, source, q, length);
  }

  lemma NextRung(at: nat, i: nat, length: nat)
    ensures Rung(at, i + 1, length) == Rung(at, i, length) + length
  {
  }

  lemma PatchedFits(b: seq<byte>, p: nat, source: seq<byte>, q: nat, length: nat)
    requires Patched(b, p, source, q, length)
    ensures p + FRAGMENT_HEADER <= |b|
  {
  }

  lemma BehindUdpHeader(m: Mep, length: nat, b: seq<byte>)
    requires WellFormed(m) && |b| == UDP_HDR + Rung(MEP_HEADER, m.header.eventCount, length)
    requires forall k :: 0 <= k < m.header.eventCount ==>
      Patched(b, UDP_HDR + Rung(MEP_HEADER, k, length), m.data, FragmentAt(m, k), length)
    ensures Invented(m, length, b[UDP_HDR..])
  {
    hide Patched, FragmentAt, Rung;
    var block := b[UDP_HDR..];
    forall k | 0 <= k < m.header.eventCount
      ensures Patched(block, Rung(MEP_HEADER, k, length), m.data, FragmentAt(m, k), length)
    {
      var r := Rung(MEP_HEADER, k, length);
      PatchedFits(b, UDP_HDR + r, m.data, FragmentAt(m, k), length);
      SameBytesSamePatch(b, block, UDP_HDR + r, r, m.data, FragmentAt(m, k), length);
    }
  }

  /** Builds the block behind room for a UDP header. `wide` selects the 32-bit patch of the L2 and
      NSTD builders, the 16-bit one of the L1 builder otherwise. */
  method Invent(m: Mep, sourceID: nat, dataSize: nat, wide: bool) returns (header: MepHeader, buffer: array<byte>)
    requires WellFormed(m)
    requires dataSize + FRAGMENT_HEADER < 0x1_0000
    requires Rung(MEP_HEADER, m.header.eventCount, dataSize + FRAGMENT_HEADER) + UDP_HDR < 0x8000_0000
    ensures fresh(buffer) && buffer.Length >= UDP_HDR
    ensures Invented(m, dataSize + FRAGMENT_HEADER, buffer[UDP_HDR..])
    ensures header == InventedHeader(m, sourceID, buffer.Length - UDP_HDR)
    ensures header.firstEventNum == m.header.firstEventNum && header.eventCount == m.header.eventCount
    ensures header.sourceID == sourceID && header.sourceSubID == 0
    ensures header.mepLength == (8 + m.header.eventCount * (dataSize + 8)) % 0x1_0000
    ensures buffer.Length == 42 + 8 + m.header.eventCount * (dataSize + 8)
  {
    hide Walk, Patched, FragmentAt, Rung;
    var mepFactor, length := m.header.eventCount, dataSize + FRAGMENT_HEADER;
    var blockLength := BlockLength(mepFactor, length);
    buffer := new byte[blockLength + UDP_HDR];
    header := MepHeader(m.header.firstEventNum, sourceID, blockLength % 0x1_0000, mepFactor, 0);
    var virtualFragment := UDP_HDR + MEP_HEADER;
    FirstRung(length);
    var i := 0;
    while i != mepFactor
      invariant 0 <= i <= mepFactor && virtualFragment == UDP_HDR + Rung(MEP_HEADER, i, length)
      invariant forall k :: 0 <= k < i ==>
        Patched(buffer[..], UDP_HDR + Rung(MEP_HEADER, k, length), m.data, FragmentAt(m, k), length)
      decreases mepFactor - i
    {
      RungsApart(MEP_HEADER, i, mepFactor, length);
      ghost var before := buffer[..];
      CopyHeader(buffer, virtualFragment, m.data, FragmentAt(m, i), length, wide);
      forall k | 0 <= k < i
        ensures Patched(buffer[..], UDP_HDR + Rung(MEP_HEADER, k, length), m.data, FragmentAt(m, k), length)
      {
        RungsApart(MEP_HEADER, k, i, length);
        KeepsPatch(before, buffer[..], UDP_HDR + Rung(MEP_HEADER, k, length), virtualFragment,
          m.data, FragmentAt(m, k), length);
      }
      NextRung(MEP_HEADER, i, length);
      virtualFragment := virtualFragment + length;
      i := i + 1;
    }
    BehindUdpHeader(m, length, buffer[..]);
  }

  lemma PatchedLoads(b: seq<byte>, p: nat, source: seq<byte>, q: nat, length: nat)
    requires Patched(b, p, source, q, length)
    ensures p + FRAGMENT_HEADER <= |b| && Load16Le(b, p) == length
  {
  }

  // ---------- reading an invented block back ----------

  /** Walking an invented block by fragment lengths finds exactly the L0TP fragments, at equal
      distances, and ends exactly at the end of the block. */
  lemma InventedWalks(m: Mep, length: nat, block: seq<byte>)
    requires WellFormed(m) && FRAGMENT_HEADER <= length && Invented(m, length, block)
    ensures var w := Walk(block, MEP_HEADER, m.header.eventCount);
      && w.Starts? && |w.at| == m.header.eventCount + 1 && w.at[m.header.eventCount] == |block|
      && forall i :: 0 <= i < m.header.eventCount ==> Patched(block, w.at[i], m.data, FragmentAt(m, i), length)
  {
    hide FragmentAt, Walk, Rung, Load16Le, Patched;
    forall i | 0 <= i < m.header.eventCount
      ensures Rung(MEP_HEADER, i, length) + 2 <= |block| && Load16Le(block, Rung(MEP_HEADER, i, length)) == length
    {
      PatchedLoads(block, Rung(MEP_HEADER, i, length), m.data, FragmentAt(m, i), length);
    }
    assert Rung(MEP_HEADER, 0, length) == MEP_HEADER by { FirstRung(length); }
    WalkLadder(block, MEP_HEADER, 0, m.header.eventCount, length);
  }

  /** The reader, who trusts the 16-bit length in the header, recovers the fragments if and only if
      the block is shorter than 2^16 bytes. */
  lemma RoundTripIffShort(m: Mep, sourceID: nat, length: nat, block: seq<byte>)
    requires WellFormed(m) && FRAGMENT_HEADER <= length && Invented(m, length, block)
    ensures var header := InventedHeader(m, sourceID, |block|);
      && (Parse(header, block).Starts? <==> |block| < 0x1_0000)
      && (Parse(header, block).Starts? ==> Parse(header, block) == Walk(block, MEP_HEADER, m.header.eventCount))
  {
    hide FragmentAt, Patched, Walk, Invented, Rung;
    InventedWalks(m, length, block);
  }

  /** Every fragment header read back is the L0TP one with its low 16 bits replaced by the length. */
  lemma ReadBackHeader(b: seq<byte>, p: nat, source: seq<byte>, q: nat, length: nat)
    requires Patched(b, p, source, q, length)
    ensures Load32Le(b, p) == Load32Le(source, q) / 0x1_0000 * 0x1_0000 + length
    ensures b[p + 4..p + 8] == source[q + 4..q + 8]
  {
    var x, y := b[p + 2..p + FRAGMENT_HEADER], source[q + 2..q + FRAGMENT_HEADER];
    assert b[p + 2] == x[0] && b[p + 3] == x[1] && source[q + 2] == y[0] && source[q + 3] == y[1];
    HalvesOfWord(b, p);
    HalvesOfWord(source, q);
    assert b[p + 4..p + 8] == x[2..] && source[q + 4..q + 8] == y[2..];
  }

  // ---------- a block that is too long ----------

  lemma ExampleWalk(m: Mep)
    requires m.header == MepHeader(0, 1, 24, 2, 0) && |m.data| == 24
    requires Load16Le(m.data, 8) == 8 && Load16Le(m.data, 16) == 8
    ensures WellFormed(m) && FragmentAt(m, 0) == 8 && FragmentAt(m, 1) == 16 && Parse(m.header, m.data).Starts?
  {
    hide Load16Le;
    assert Walk(m.data, 24, 0) == Starts([24]);
    assert Walk(m.data, 16, 1) == Starts([16, 24]);
    assert Walk(m.data, 8, 2) == Starts([8, 16, 24]);
  }

  lemma ExampleRungs()
    ensures Rung(8, 0, 40008) == 8 && Rung(8, 1, 40008) == 40016 && Rung(8, 2, 40008) == 80024
  {
    RungIs(8, 1, 40008);
    RungIs(8, 2, 40008);
  }

  /** Two fragments of 40008 bytes each: the block has 80024 bytes, its header says 14488, and the
      reader gets nothing. */
  lemma LongBlockIsUnreadable() returns (m: Mep, length: nat, block: seq<byte>)
    ensures WellFormed(m) && Parse(m.header, m.data).Starts?
    ensures FRAGMENT_HEADER <= length < 0x1_0000 && |block| + UDP_HDR < 0x8000_0000
    ensures Invented(m, length, block) && |block| >= 0x1_0000
    ensures forall sourceID :: Parse(InventedHeader(m, sourceID, |block|), block) == Stuck
  {
    hide InventedHeader, Parse;
    var data: seq<byte> := seq(24, i => if i == 8 || i == 16 then 8 else 0);
    m := Mep(MepHeader(0, 1, 24, 2, 0), data);
    length := 40008;
    block := seq(80024, i => if i == 8 || i == 40016 then 72 else if i == 9 || i == 40017 then 156 else 0);
    ExampleWalk(m);
    ExampleRungs();
    assert block[10..16] == data[10..16] && block[40018..40024] == data[18..24];
    assert Patched(block, 8, data, 8, length) && Patched(block, 40016, data, 16, length);
    forall sourceID ensures Parse(InventedHeader(m, sourceID, |block|), block) == Stuck {
      RoundTripIffShort(m, sourceID, length, block);
    }
  }
}
