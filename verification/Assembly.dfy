/** What the copy loop of `reassembleFrame` produces, and when. */
module Assembly {
  import opened Bytes
  import opened Network
  import opened Sums
  import opened Reassembly

  /** What the copy loop takes from a container: of the fragment that opens the datagram everything behind
      the headers, padding included, of any other the announced payload. */
  function StoredLen(p: Packet): int { if Offset(p) == 0 then |p.bytes| - HEADERS else PayloadLen(p) }

  function StoredEnd(p: Packet): int { Offset(p) + StoredLen(p) }

  /** The copy would read beyond the container, or write beyond a buffer that ends with the payload of `last`. */
  predicate Escapes(p: Packet, last: Packet) { (Offset(p) > 0 && !Readable(p)) || StoredEnd(p) > EndOf(last) }

  /** The fragment's payload stands in the frame at the fragment's own offset behind the headers. */
  ghost predicate CarriedBy(p: Packet, frame: seq<byte>) {
    Readable(p) && HEADERS + EndOf(p) <= |frame| && frame[HEADERS + Offset(p)..HEADERS + EndOf(p)] == Payload(p)
  }

  /** The same without the padding question: with an unpadded opening fragment, what is copied is what
      was announced. */
  lemma UnpaddedStores(fs: seq<Packet>)
    requires UnpaddedStart(fs)
    ensures forall p :: p in fs ==> StoredLen(p) == PayloadLen(p)
    ensures Sum(fs, StoredLen) == PayloadSum(fs)
    ensures forall n :: CoveredOnce(fs, StoredLen, n) <==> ExactCover(fs, n)
  {
    hide Offset;
    SumSame(fs, StoredLen, PayloadLen);
    forall j ensures Coverage(fs, StoredLen, j) == Coverage(fs, PayloadLen, j) {
      SumSame(fs, CoverMark(StoredLen, j), CoverMark(PayloadLen, j));
    }
  }

  // ---------- how the copy loop ends ----------

  /** One turn of the loop, in these terms. */
  lemma RestTurn(s: seq<Packet>, i: nat, w: Network.Frame)
    requires i < |s| && |w| == HEADERS + Sum(s[..i], StoredLen)
    ensures var last := s[|s| - 1];
      AssembleRest(s, i, w, HEADERS + EndOf(last)) ==
        if Offset(s[i]) != Sum(s[..i], StoredLen) then Rejected
        else if Escapes(s[i], last) then OutOfBounds
        else AssembleRest(s, i + 1, w + Payload(s[i]), HEADERS + EndOf(last))
  {
    hide Load16Be, FragOff, Sum;
  }

  lemma AssembledAll(s: seq<Packet>, w: Network.Frame, total: nat)
    ensures AssembleRest(s, |s|, w, total) == Frame(w)
  {
  }

  lemma NextSum(s: seq<Packet>, i: nat, w: Network.Frame)
    requires i < |s| && |w| == HEADERS + Sum(s[..i], StoredLen) && Offset(s[i]) == Sum(s[..i], StoredLen)
    requires !Escapes(s[i], s[|s| - 1])
    ensures Readable(s[i]) && |w + Payload(s[i])| == HEADERS + Sum(s[..i + 1], StoredLen)
  {
    hide Load16Be, FragOff, Sum;
    SumTake(s, i, StoredLen);
  }

  /** From fragment i on, the loop leaves a buffer or container at the first fragment of a contiguous
      prefix whose copy escapes, and succeeds if all of them are contiguous and none escapes. */
  lemma {:induction false} RestEnds(s: seq<Packet>, i: nat, w: Network.Frame)
    requires 0 < i <= |s| && Chained(s, StoredLen, i) && |w| == HEADERS + Sum(s[..i], StoredLen)
    ensures var out, last := AssembleRest(s, i, w, HEADERS + EndOf(s[|s| - 1])), s[|s| - 1];
      && (out == OutOfBounds <==> exists k :: i <= k < |s| && Chained(s, StoredLen, k + 1) && Escapes(s[k], last))
      && (out.Frame? <==> Chained(s, StoredLen, |s|) && forall k :: i <= k < |s| ==> !Escapes(s[k], last))
    decreases |s| - i
  {
    hide Offset, TotLen, Sum, Escapes, AssembleRest;
    if i < |s| {
      RestTurn(s, i, w);
      if Offset(s[i]) == Sum(s[..i], StoredLen) {
        assert Chained(s, StoredLen, i + 1);
        if !Escapes(s[i], s[|s| - 1]) {
          NextSum(s, i, w);
          RestEnds(s, i + 1, w + Payload(s[i]));
        }
      }
    } else {
      AssembledAll(s, w, HEADERS + EndOf(s[|s| - 1]));
    }
  }

  lemma SumOfNone(s: seq<Packet>)
    ensures s[..0] == [] && s[..|s|] == s && Sum(s[..0], StoredLen) == 0 && Sum(s[..0], PayloadLen) == 0
  {
    assert s[..0] == [];
    SumZero(s[..0], StoredLen);
    SumZero(s[..0], PayloadLen);
  }

  /** For any list: a copy escapes exactly when that of some fragment does to which the list is contiguous;
      a frame comes out exactly when the whole list is contiguous and no copy escapes. */
  lemma AssembleEnds(s: seq<Packet>)
    requires |s| > 0
    ensures Assemble(s) == OutOfBounds <==>
      exists k :: 0 <= k < |s| && Chained(s, StoredLen, k + 1) && Escapes(s[k], s[|s| - 1])
    ensures Assemble(s).Frame? <==>
      Chained(s, StoredLen, |s|) && forall k :: 0 <= k < |s| ==> !Escapes(s[k], s[|s| - 1])
  {
    hide Load16Be, Sum, AssembleRest, FragOff;
    SumOfNone(s);
    if Offset(s[0]) == 0 {
      SumTake(s, 0, StoredLen);
      assert Chained(s, StoredLen, 1);
      RestEnds(s, 1, s[0].bytes);
    }
  }

  // ---------- what a frame holds ----------

  /** The payloads of the fragments from the second to the i-th stand at their own offsets. */
  ghost predicate Placed(s: seq<Packet>, i: nat, w: seq<byte>)
    requires i <= |s|
  {
    forall k :: 0 < k < i ==> Offset(s[k]) > 0 && CarriedBy(s[k], w)
  }

  lemma StaysCarried(p: Packet, w: seq<byte>, more: seq<byte>)
    requires CarriedBy(p, w)
    ensures CarriedBy(p, w + more)
  {
    hide Load16Be, FragOff;
    assert (w + more)[HEADERS + Offset(p)..HEADERS + EndOf(p)] == w[HEADERS + Offset(p)..HEADERS + EndOf(p)];
  }

  lemma NewlyCarried(p: Packet, w: seq<byte>)
    requires Readable(p) && |w| == HEADERS + Offset(p)
    ensures CarriedBy(p, w + Payload(p))
  {
    hide Load16Be, FragOff;
    assert (w + Payload(p))[HEADERS + Offset(p)..HEADERS + EndOf(p)] == Payload(p);
  }

  lemma OnePlacedMore(s: seq<Packet>, i: nat, w: Network.Frame)
    requires 0 < i < |s| && Placed(s, i, w) && Readable(s[i]) && |w| == HEADERS + Offset(s[i])
    ensures Placed(s, i + 1, w + Payload(s[i]))
  {
    hide Load16Be, FragOff, CarriedBy, Readable;
    NewlyCarried(s[i], w);
    forall k | 0 < k < i ensures CarriedBy(s[k], w + Payload(s[i])) { StaysCarried(s[k], w, Payload(s[i])); }
  }

  lemma NextFits(s: seq<Packet>, i: nat, w: Network.Frame)
    requires i < |s| && |w| == HEADERS + Sum(s[..i], StoredLen) && Offset(s[i]) == Sum(s[..i], StoredLen)
    requires !Escapes(s[i], s[|s| - 1])
    ensures HEADERS + Sum(s[..i + 1], StoredLen) <= HEADERS + EndOf(s[|s| - 1])
  {
    hide Load16Be, FragOff, Sum;
    SumTake(s, i, StoredLen);
  }

  lemma {:induction false} RestKeepsPlaces(s: seq<Packet>, i: nat, w: Network.Frame, b: Network.Frame)
    requires 0 < i <= |s| && Chained(s, StoredLen, i) && Placed(s, i, w)
    requires |w| == HEADERS + Sum(s[..i], StoredLen) <= HEADERS + EndOf(s[|s| - 1])
    requires AssembleRest(s, i, w, HEADERS + EndOf(s[|s| - 1])) == Frame(b)
    ensures Chained(s, StoredLen, |s|) && Placed(s, |s|, b) && w <= b
    ensures |b| == HEADERS + Sum(s, StoredLen) <= HEADERS + EndOf(s[|s| - 1])
    decreases |s| - i
  {
    hide Offset, TotLen, Sum, Escapes, AssembleRest, CarriedBy, Placed, EndOf, StoredLen;
    if i == |s| {
      assert s[..i] == s;
      AssembledAll(s, w, HEADERS + EndOf(s[|s| - 1]));
    } else {
      RestTurn(s, i, w);
      NextSum(s, i, w);
      assert Chained(s, StoredLen, i + 1);
      OnePlacedMore(s, i, w);
      NextFits(s, i, w);
      RestKeepsPlaces(s, i + 1, w + Payload(s[i]), b);
    }
  }

  lemma OpeningIsChained(s: seq<Packet>)
    requires |s| > 0 && Offset(s[0]) == 0
    ensures Chained(s, StoredLen, 1)
  {
    SumOfNone(s);
  }

  lemma LastOfChain(s: seq<Packet>)
    requires |s| > 0 && Chained(s, StoredLen, |s|)
    ensures Sum(s, StoredLen) == StoredEnd(s[|s| - 1])
  {
    hide Load16Be, FragOff, Sum;
    SumOfNone(s);
    SumTake(s, |s| - 1, StoredLen);
  }

  lemma AssemblyStarts(s: seq<Packet>, b: Network.Frame)
    requires |s| > 0 && Assemble(s) == Frame(b)
    ensures Offset(s[0]) == 0 && |s[0].bytes| == HEADERS + Sum(s[..1], StoredLen) <= HEADERS + EndOf(s[|s| - 1])
    ensures AssembleRest(s, 1, s[0].bytes, HEADERS + EndOf(s[|s| - 1])) == Frame(b) && Chained(s, StoredLen, 1)
  {
    hide Load16Be, FragOff, Sum, AssembleRest, Chained;
    SumOfNone(s);
    SumTake(s, 0, StoredLen);
    OpeningIsChained(s);
  }

  lemma OneOpening(s: seq<Packet>, b: Network.Frame)
    requires |s| > 0 && Offset(s[0]) == 0 && Placed(s, |s|, b)
    ensures UnpaddedStart(s) <==> Unpadded(s[0])
  {
    hide Load16Be, FragOff, CarriedBy;
    assert s[0] in s;
    assert forall p :: p in s && Offset(p) == 0 ==> p == s[0];
  }

  /** A successful assembly is contiguous, starts with the whole first container and has every other
      payload at its own offset. */
  lemma AssembledIsChained(s: seq<Packet>, b: Network.Frame)
    requires |s| > 0 && Assemble(s) == Frame(b)
    ensures Offset(s[0]) == 0 && s[0].bytes <= b && Placed(s, |s|, b) && Chained(s, StoredLen, |s|)
    ensures |b| == HEADERS + Sum(s, StoredLen) == HEADERS + StoredEnd(s[|s| - 1]) <= HEADERS + EndOf(s[|s| - 1])
    ensures UnpaddedStart(s) <==> Unpadded(s[0])
  {
    hide Assemble, Offset, TotLen, Sum, AssembleRest, Chained, CarriedBy, Readable, UnpaddedStart, Unpadded;
    AssemblyStarts(s, b);
    RestKeepsPlaces(s, 1, s[0].bytes, b);
    LastOfChain(s);
    OneOpening(s, b);
  }

  /** What is copied of a delivered list, and what its headers announce, differ by the padding. */
  lemma AssembledLength(s: seq<Packet>, b: Network.Frame)
    requires |s| > 0 && Assemble(s) == Frame(b)
    ensures |b| == PayloadSum(s) + |s[0].bytes| - PayloadLen(s[0]) && |s[0].bytes| <= |b|
    ensures |b| == HEADERS + PayloadSum(s) <==> UnpaddedStart(s)
  {
    hide Load16Be, Sum, Assemble, FragOff, Chained;
    AssembledIsChained(s, b);
    SumPick(s, 0, StoredLen);
    SumPick(s, 0, PayloadLen);
    assert s[..0] + s[1..] == s[1..];
    SumSame(s[1..], StoredLen, PayloadLen);
  }

  lemma PayloadBounds(p: Packet)
    ensures -0x100 < PayloadLen(p) < 0x1_0000 && -0x100 < EndOf(p) < 0x2_0000
  {
    hide Load16Be;
  }

  lemma SameModulo(x: int, y: int)
    requires x % UINT == y % UINT && -UINT < x - y < UINT
    ensures x == y
  {
  }

  /** What a delivered list announces is in the range of a frame. */
  lemma AssembledBounds(s: seq<Packet>, b: Network.Frame)
    requires |s| > 0 && Assemble(s) == Frame(b)
    ensures -0x2_0000 < PayloadSum(s) < 0x8_0000
  {
    hide Load16Be, Sum, Assemble, EndOf, PayloadLen, Chained, Placed;
    AssembledIsChained(s, b);
    AssembledLength(s, b);
    PayloadBounds(s[0]);
    PayloadBounds(s[|s| - 1]);
  }

  /** Whatever was assembled, the 32-bit sum test was exact. */
  lemma AssembledSum(s: seq<Packet>, b: Network.Frame)
    requires |s| > 0 && Completed(s) && Assemble(s) == Frame(b)
    ensures PayloadSum(s) == EndOf(LatestFinal(s))
  {
    hide Sum, Finals, LatestFinal, Assemble, PayloadSum, EndOf, PayloadLen;
    AssembledBounds(s, b);
    PayloadBounds(LatestFinal(s));
    SameModulo(EndOf(LatestFinal(s)), PayloadSum(s));
  }

  // ---------- lists in arrival order ----------

  /** What a permutation keeps of the list of fragments. */
  lemma PermutationKeeps(fs: seq<Packet>, s: seq<Packet>)
    requires multiset(s) == multiset(fs)
    ensures |s| == |fs| && forall p :: p in s <==> p in fs
    ensures Completed(s) <==> Completed(fs)
    ensures Filled(s) <==> Filled(fs)
    ensures UnpaddedStart(s) <==> UnpaddedStart(fs)
  {
    hide Offset, PayloadLen, MoreFragments, Sum;
    assert |s| == |multiset(s)| && |fs| == |multiset(fs)|;
    assert forall p :: p in s <==> p in multiset(s);
    assert forall p :: p in fs <==> p in multiset(fs);
    SumPermutation(fs, s, FinalMark);
    if Finals(fs) == 1 { FinalOfPermutation(fs, s); }
  }

  /** An exact cover up to the end of the final fragment passes the arithmetic test. */
  lemma ExactCoverCompletes(fs: seq<Packet>, n: int)
    requires Finals(fs) == 1 && n == EndOf(LatestFinal(fs)) && ExactCover(fs, n)
    requires forall p :: p in fs ==> PayloadLen(p) > 0
    ensures Completed(fs) && PayloadSum(fs) == n
  {
    hide Offset, PayloadLen, MoreFragments, Sum, Sorted, CoveredOnce;
    var s := InsertionSort(fs, ByOffset());
    SortedPermutationExists(fs);
    PermutationKeeps(fs, s);
    CoverageOfPermutation(fs, s, PayloadLen, n);
    FinalOfPermutation(fs, s);
    ContiguousIffExactCover(s, n);
  }

  // ---------- the main results ----------

  /** The delivered length is that of the datagram exactly when the opening fragment came without
      Ethernet padding: the first container is copied whole. */
  lemma DeliveredLengthIffUnpadded(fs: seq<Packet>, b: Network.Frame)
    requires Allowed(fs, Frame(b))
    ensures Finals(fs) == 1
    ensures |b| == HEADERS + EndOf(LatestFinal(fs)) <==> UnpaddedStart(fs)
  {
    hide Offset, MoreFragments, TotLen, Sum, Assemble, Sorted, SumMatches, LatestFinal;
    var s: seq<Packet> :| SortedPermutation(fs, s) && |s| > 0 && Frame(b) == Assemble(s);
    PermutationKeeps(fs, s);
    FinalOfPermutation(fs, s);
    AssembledSum(s, b);
    AssembledLength(s, b);
  }

  /** The fragment starts no earlier than any other. */
  ghost predicate Highest(fs: seq<Packet>, q: Packet) { q in fs && forall p :: p in fs ==> Offset(p) <= Offset(q) }

  /** The frame begins with the whole container of o, and has every other fragment's payload in its place. */
  ghost predicate Opens(fs: seq<Packet>, o: Packet, b: Network.Frame) {
    o in fs && Offset(o) == 0 && o.bytes <= b && forall p :: p in fs && p != o ==> Offset(p) > 0 && CarriedBy(p, b)
  }

  lemma AssembledCovers(s: seq<Packet>, b: Network.Frame)
    requires |s| > 0 && Assemble(s) == Frame(b)
    ensures CoveredOnce(s, StoredLen, |b| - HEADERS)
  {
    hide Load16Be, FragOff, Sum, Assemble, CoveredOnce;
    AssembledIsChained(s, b);
    assert forall k :: 0 < k < |s| ==> Readable(s[k]) && Offset(s[k]) > 0;
    ChainCovers(s, StoredLen, |s|);
    assert s[..|s|] == s;
  }

  lemma AssembledEnd(s: seq<Packet>, b: Network.Frame)
    requires |s| > 0 && Assemble(s) == Frame(b) && (|s| > 1 || UnpaddedStart(s))
    ensures |b| == HEADERS + EndOf(s[|s| - 1])
  {
    hide Load16Be, FragOff, Sum, Assemble, Chained;
    AssembledIsChained(s, b);
  }

  lemma OpeningIsCarried(o: Packet, b: Network.Frame)
    requires Offset(o) == 0 && Unpadded(o) && o.bytes <= b
    ensures CarriedBy(o, b)
  {
    hide Load16Be, FragOff;
    assert o.bytes[HEADERS..HEADERS + PayloadLen(o)] == b[HEADERS..HEADERS + PayloadLen(o)];
  }

  lemma AllAreCarried(fs: seq<Packet>, o: Packet, b: Network.Frame)
    requires Opens(fs, o, b) && Unpadded(o)
    ensures forall p :: p in fs ==> CarriedBy(p, b)
  {
    hide Offset, CarriedBy, Unpadded;
    OpeningIsCarried(o, b);
  }

  lemma AssembledOpens(fs: seq<Packet>, s: seq<Packet>, b: Network.Frame)
    requires |s| > 0 && (forall p :: p in s <==> p in fs) && Offset(s[0]) == 0 && s[0].bytes <= b && Placed(s, |s|, b)
    ensures Opens(fs, s[0], b)
  {
    hide Offset, CarriedBy;
    assert s[0] in s;
    forall p | p in fs && p != s[0] ensures Offset(p) > 0 && CarriedBy(p, b) {
      var k :| 0 <= k < |s| && s[k] == p;
    }
  }

  /** Soundness for arbitrary traffic. Whatever was received under the key, a delivered frame is the whole
      container of the one opening fragment, followed by every other payload at its own offset, with
      every byte coming from exactly one fragment and the buffer filled to its end. If the opening fragment
      was unpadded, the payloads tile the datagram up to the end of the final fragment. */
  lemma DeliveredFrameIsExact(fs: seq<Packet>, b: Network.Frame)
    requires Allowed(fs, Frame(b))
    ensures exists o :: Opens(fs, o, b)
    ensures CoveredOnce(fs, StoredLen, |b| - HEADERS)
    ensures |fs| > 1 || UnpaddedStart(fs) ==> exists q :: Highest(fs, q) && |b| == HEADERS + EndOf(q)
    ensures Finals(fs) == 1
    ensures UnpaddedStart(fs) ==>
      && ExactCover(fs, EndOf(LatestFinal(fs))) && |b| == HEADERS + EndOf(LatestFinal(fs))
      && forall p :: p in fs ==> CarriedBy(p, b)
  {
    hide Offset, PayloadLen, MoreFragments, Sum, Assemble, ExactCover, CarriedBy, SumMatches, LatestFinal, StoredLen,
      Unpadded, Chained, CoveredOnce, Opens, Placed;
    var s: seq<Packet> :| SortedPermutation(fs, s) && |s| > 0 && Frame(b) == Assemble(s);
    PermutationKeeps(fs, s);
    AssembledIsChained(s, b);
    AssembledCovers(s, b);
    assert s[0] in s && s[|s| - 1] in s;
    AssembledOpens(fs, s, b);
    CoverageOfPermutation(fs, s, StoredLen, |b| - HEADERS);
    assert Highest(fs, s[|s| - 1]);
    if |s| > 1 || UnpaddedStart(s) { AssembledEnd(s, b); }
    DeliveredLengthIffUnpadded(fs, b);
    if UnpaddedStart(fs) {
      UnpaddedStores(fs);
      AllAreCarried(fs, s[0], b);
    }
  }

  lemma {:induction false} ChainGrows(s: seq<Packet>, i: nat, j: nat)
    requires i <= j <= |s| && forall k :: i <= k < j ==> StoredLen(s[k]) >= 0
    ensures Sum(s[..i], StoredLen) <= Sum(s[..j], StoredLen)
    decreases j
  {
    hide StoredLen;
    if i < j {
      SumTake(s, j - 1, StoredLen);
      ChainGrows(s, i, j - 1);
    }
  }

  /** A contiguous list of readable fragments, the last of them behind the opening one, is assembled. */
  lemma ChainedIsAssembled(s: seq<Packet>)
    requires |s| > 0 && Chained(s, StoredLen, |s|) && StoredLen(s[|s| - 1]) == PayloadLen(s[|s| - 1])
    requires forall k :: 0 <= k < |s| && Offset(s[k]) > 0 ==> Readable(s[k])
    ensures Assemble(s).Frame?
  {
    hide Load16Be, FragOff, Sum, Assemble;
    forall k | 0 <= k < |s| ensures !Escapes(s[k], s[|s| - 1]) {
      SumTake(s, k, StoredLen);
      SumTake(s, |s| - 1, StoredLen);
      ChainGrows(s, k + 1, |s|);
    }
    AssembleEnds(s);
  }

  lemma ExactCoverAssembles(s: seq<Packet>, n: nat)
    requires |s| > 0 && Sorted(s) && Filled(s) && UnpaddedStart(s) && ExactCover(s, n)
    ensures Assemble(s).Frame?
  {
    hide Load16Be, FragOff, Sum, Assemble, StoredLen, Readable, PayloadLen, ExactCover;
    UnpaddedStores(s);
    assert forall k :: 0 <= k < |s| ==> s[k] in s;
    ChainedIffCovered(s, StoredLen, n);
    ChainedIsAssembled(s);
  }

  /** For any arrival order, and with duplicates, overlaps, gaps, padding and unreadable fragments in
      play: the datagram comes out in its own length exactly when there is one final fragment, the
      fragments tile the payload up to its end, each is held by its container, and the opening one is
      unpadded. With an unpadded opening no other frame comes out. */
  lemma FrameIffExactCover(fs: seq<Packet>, out: Outcome)
    requires Allowed(fs, out)
    requires forall p :: p in fs ==> PayloadLen(p) > 0
    ensures Finals(fs) == 1 && out.Frame? && |out.bytes| == HEADERS + EndOf(LatestFinal(fs))
      <==> Finals(fs) == 1 && ExactCover(fs, EndOf(LatestFinal(fs))) && Filled(fs) && UnpaddedStart(fs)
    ensures out.Frame? && UnpaddedStart(fs) ==> |out.bytes| == HEADERS + EndOf(LatestFinal(fs))
  {
    hide Offset, PayloadLen, MoreFragments, Sum, Assemble, Sorted, CoveredOnce, UnpaddedStart, StoredLen;
    if out.Frame? {
      DeliveredLengthIffUnpadded(fs, out.bytes);
      if UnpaddedStart(fs) { DeliveredFrameIsExact(fs, out.bytes); }
    } else if Finals(fs) == 1 && ExactCover(fs, EndOf(LatestFinal(fs))) && Filled(fs) && UnpaddedStart(fs) {
      ExactCoverCompletes(fs, EndOf(LatestFinal(fs)));
      var s: seq<Packet> :| SortedPermutation(fs, s) && |s| > 0 && out == Assemble(s);
      PermutationKeeps(fs, s);
      CoverageOfPermutation(fs, s, PayloadLen, PayloadSum(fs));
      ExactCoverAssembles(s, PayloadSum(fs));
    }
  }

  lemma {:induction false} AssembleOutcome(s: seq<Packet>, i: nat, w: Network.Frame, total: nat)
    requires i <= |s|
    ensures var out := AssembleRest(s, i, w, total); out.Frame? || out.Rejected? || out.OutOfBounds?
    decreases |s| - i
  {
    if i < |s| && Readable(s[i]) {
      AssembleOutcome(s, i + 1, w + Payload(s[i]), total);
    }
  }

  /** Every counted attempt ends in a frame, a contiguity rejection or the undefined copy; nothing else
      ends so. A second final fragment has the list purged. */
  lemma AttemptOutcome(fs: seq<Packet>, out: Outcome)
    requires Allowed(fs, out)
    ensures Completed(fs) <==> out.Frame? || out.Rejected? || out.OutOfBounds?
    ensures Finals(fs) > 1 <==> out.Purged?
  {
    if Completed(fs) {
      var s: seq<Packet> :| SortedPermutation(fs, s) && |s| > 0 && out == Assemble(s);
      AssembleOutcome(s, 1, s[0].bytes, ETHER_HEADER + Offset(s[|s| - 1]) + TotLen(s[|s| - 1]));
    }
  }
}
