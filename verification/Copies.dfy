/** For which received fragments a frame can come out, and for which a copy can leave the new buffer or a
    container, stated without any order. */
module Copies {
  import opened Bytes
  import opened Network
  import opened Sums
  import opened Reassembly
  import opened Assembly

  /** The fragments that start before byte n. */
  function Below(fs: seq<Packet>, n: int): seq<Packet> {
    if fs == [] then []
    else Below(fs[..|fs| - 1], n) + (if Offset(fs[|fs| - 1]) < n then [fs[|fs| - 1]] else [])
  }

  /** What is copied of the fragments makes up the first n bytes: each byte comes from one of them, none
      starts inside another or beyond the end, and all but the opening one are readable. */
  ghost predicate Tiles(fs: seq<Packet>, n: int) {
    && CoveredOnce(fs, StoredLen, n)
    && (forall p :: p in fs ==> Offset(p) <= n && (Offset(p) > 0 ==> Readable(p)))
    && (forall p, q :: p in fs && q in fs ==> !(Offset(p) < Offset(q) < StoredEnd(p)))
  }

  lemma PermutationTiles(fs: seq<Packet>, s: seq<Packet>, n: int)
    requires multiset(fs) == multiset(s)
    ensures Tiles(fs, n) <==> Tiles(s, n)
  {
    hide Offset, StoredLen, Readable, CoveredOnce;
    CoverageOfPermutation(fs, s, StoredLen, n);
    assert forall p :: p in s <==> p in multiset(s);
    assert forall p :: p in fs <==> p in multiset(fs);
  }

  lemma {:induction false} BelowCount(fs: seq<Packet>, n: int, p: Packet)
    ensures multiset(Below(fs, n))[p] == if Offset(p) < n then multiset(fs)[p] else 0
  {
    hide Offset;
    if fs != [] {
      var init, last := fs[..|fs| - 1], fs[|fs| - 1];
      BelowCount(init, n, p);
      assert fs == init + [last];
      if Offset(last) < n {
        assert Below(fs, n) == Below(init, n) + [last];
      } else {
        assert Below(fs, n) == Below(init, n);
      }
    }
  }

  lemma PermutationBelow(fs: seq<Packet>, s: seq<Packet>, n: int)
    requires multiset(fs) == multiset(s)
    ensures multiset(Below(fs, n)) == multiset(Below(s, n))
  {
    hide Offset, Below;
    forall p ensures multiset(Below(fs, n))[p] == multiset(Below(s, n))[p] {
      BelowCount(fs, n, p);
      BelowCount(s, n, p);
    }
  }

  /** In a sorted list they stand in front. */
  lemma {:induction false} BelowIsPrefix(s: seq<Packet>, n: int, i: nat)
    requires i <= |s|
    requires forall k :: 0 <= k < |s| ==> (Offset(s[k]) < n <==> k < i)
    ensures Below(s, n) == s[..i]
  {
    hide Offset;
    if s != [] {
      var last := |s| - 1;
      if i == |s| {
        BelowIsPrefix(s[..last], n, last);
        assert s[..i] == s[..last] + [s[last]];
      } else {
        BelowIsPrefix(s[..last], n, i);
        assert s[..last][..i] == s[..i];
      }
    }
  }

  // ---------- contiguous lists tile, and tiles can be laid in order ----------

  lemma Stored(p: Packet)
    requires Offset(p) > 0 ==> Readable(p)
    ensures StoredLen(p) >= 0 && (Offset(p) == 0 ==> StoredLen(p) > 0)
  {
  }

  lemma ChainTiles(s: seq<Packet>, i: nat)
    requires i <= |s| && Sorted(s) && Chained(s, StoredLen, i)
    requires forall k :: 0 <= k < i && Offset(s[k]) > 0 ==> Readable(s[k])
    ensures Tiles(s[..i], Sum(s[..i], StoredLen))
  {
    hide Offset, StoredLen, Readable, Sum, CoveredOnce;
    forall k | 0 <= k < i ensures StoredLen(s[k]) >= 0 { Stored(s[k]); }
    ChainCovers(s, StoredLen, i);
    forall k | 0 <= k < i ensures StoredEnd(s[k]) <= Sum(s[..i], StoredLen) {
      SumTake(s, k, StoredLen);
      ChainGrows(s, k + 1, i);
    }
    forall k, m | 0 <= k < i && 0 <= m < i ensures !(Offset(s[k]) < Offset(s[m]) < StoredEnd(s[k])) {
      if k < m {
        SumTake(s, k, StoredLen);
        ChainGrows(s, k + 1, m);
      }
    }
  }

  /** Where a fragment stands in the order: by offset, at equal offsets `first` before empty ones, these
      before others, and `last` behind. */
  function Place(first: Packet, last: Packet): Packet -> int {
    p => 4 * Offset(p) + if p == first then 0 else if p == last then 3 else if StoredLen(p) <= 0 then 1 else 2
  }

  function Arranged(fs: seq<Packet>, first: Packet, last: Packet): seq<Packet> {
    InsertionSort(fs, Place(first, last))
  }

  lemma ArrangedIsSorted(fs: seq<Packet>, first: Packet, last: Packet)
    ensures SortedPermutation(fs, Arranged(fs, first, last)) && SortedBy(Arranged(fs, first, last), Place(first, last))
  {
    hide Offset, StoredLen;
    var s := Arranged(fs, first, last);
    InsertionSortSorts(fs, Place(first, last));
    forall i, j | 0 <= i < j < |s| ensures Offset(s[i]) <= Offset(s[j]) {
      assert Place(first, last)(s[i]) <= Place(first, last)(s[j]);
    }
  }

  /** A prefix of such a list that holds neither `first` nor `last` is contiguous if it tiles. */
  lemma TilesChain(s: seq<Packet>, i: nat, n: nat, first: Packet, last: Packet)
    requires i <= |s| && SortedBy(s, Place(first, last)) && Sorted(s) && Tiles(s[..i], n)
    requires forall k :: 0 <= k < i ==> s[k] != first && s[k] != last
    ensures Chained(s, StoredLen, i) && Sum(s[..i], StoredLen) == n
  {
    hide Offset, StoredLen, Readable, Sum, CoveredOnce;
    var t := s[..i];
    forall k | 0 <= k < i ensures StoredLen(t[k]) >= 0 && Offset(t[k]) <= n {
      assert t[k] in t;
      Stored(t[k]);
    }
    forall k, m | 0 <= k < m < i && StoredLen(t[m]) == 0
      ensures !(Offset(t[k]) <= Offset(t[m]) < Offset(t[k]) + StoredLen(t[k]))
    {
      assert t[k] in t && t[m] in t;
      assert Place(first, last)(s[k]) <= Place(first, last)(s[m]);
    }
    ChainedIffCovered(t, StoredLen, n);
    forall k | 0 <= k < i ensures Offset(s[k]) == Sum(s[..k], StoredLen) {
      assert t[..k] == s[..k];
    }
  }

  /** A packet that is none of the list. */
  lemma {:induction false} Nowhere(fs: seq<Packet>) returns (p: Packet)
    ensures p !in fs && forall q :: q in fs ==> q.address < p.address
  {
    if fs == [] {
      p := Packet(0, seq(UDP_HDR, _ => 0));
    } else {
      var r := Nowhere(fs[..|fs| - 1]);
      p := Packet(r.address + fs[|fs| - 1].address + 1, r.bytes);
    }
  }

  // ---------- when a copy can leave its buffer ----------

  /** The fragments that start before q tile the bytes up to it, and then the copy of q reads beyond its
      container, or writes beyond the end of a fragment that starts no earlier than any other. */
  ghost predicate Strays(fs: seq<Packet>, q: Packet) {
    && q in fs && Tiles(Below(fs, Offset(q)), Offset(q))
    && ((Offset(q) > 0 && !Readable(q)) || exists l :: Highest(fs, l) && EndOf(l) < StoredEnd(q))
  }

  /** The first index with the same offset. */
  lemma {:induction false} FirstOfOffset(s: seq<Packet>, i: nat) returns (j: nat)
    requires i < |s| && Sorted(s)
    ensures j <= i && Offset(s[j]) == Offset(s[i])
    ensures forall k :: 0 <= k < |s| ==> (Offset(s[k]) < Offset(s[i]) <==> k < j)
    decreases i
  {
    hide Offset;
    if i > 0 && Offset(s[i - 1]) == Offset(s[i]) {
      j := FirstOfOffset(s, i - 1);
    } else {
      j := i;
    }
  }

  lemma {:induction false} FirstEscape(s: seq<Packet>, i: nat) returns (k: nat)
    requires i < |s| && Escapes(s[i], s[|s| - 1])
    ensures k <= i && Escapes(s[k], s[|s| - 1]) && forall m :: 0 <= m < k ==> !Escapes(s[m], s[|s| - 1])
    decreases i
  {
    hide Escapes;
    if m :| 0 <= m < i && Escapes(s[m], s[|s| - 1]) {
      k := FirstEscape(s, m);
    } else {
      k := i;
    }
  }

  /** Up to the first escaping copy of a contiguous list, the fragments below tile. */
  lemma EscapeTiles(s: seq<Packet>, i: nat)
    requires i < |s| && Sorted(s) && Chained(s, StoredLen, i + 1)
    requires forall m :: 0 <= m < i ==> !Escapes(s[m], s[|s| - 1])
    ensures Tiles(Below(s, Offset(s[i])), Offset(s[i]))
  {
    hide Offset, StoredLen, Readable, Sum, Below, Tiles, EndOf, StoredEnd;
    var j := FirstOfOffset(s, i);
    ChainTiles(s, j);
    assert Offset(s[j]) == Sum(s[..j], StoredLen);
    BelowIsPrefix(s, Offset(s[i]), j);
  }

  lemma ChainPrefix(s: seq<Packet>, i: nat, j: nat)
    requires i <= j < |s| && Chained(s, StoredLen, j + 1)
    ensures Chained(s, StoredLen, i + 1)
  {
  }

  lemma EscapeStrays(fs: seq<Packet>, s: seq<Packet>)
    requires SortedPermutation(fs, s) && |s| > 0 && Assemble(s) == OutOfBounds
    ensures exists q :: Strays(fs, q)
  {
    hide Offset, StoredLen, Readable, Sum, Assemble, Below, Tiles, StoredEnd, EndOf, Chained;
    AssembleEnds(s);
    var i0 :| 0 <= i0 < |s| && Chained(s, StoredLen, i0 + 1) && Escapes(s[i0], s[|s| - 1]);
    var i := FirstEscape(s, i0);
    ChainPrefix(s, i, i0);
    EscapeTiles(s, i);
    var q := s[i];
    PermutationBelow(fs, s, Offset(q));
    PermutationTiles(Below(fs, Offset(q)), Below(s, Offset(q)), Offset(q));
    PermutationKeeps(fs, s);
    assert q in s && s[|s| - 1] in s;
    assert Highest(fs, s[|s| - 1]);
    assert Strays(fs, q);
  }

  lemma {:induction false} FirstAt(s: seq<Packet>, q: Packet) returns (i: nat)
    requires q in s
    ensures i < |s| && s[i] == q && q !in s[..i]
  {
    if q in s[..|s| - 1] {
      i := FirstAt(s[..|s| - 1], q);
      assert s[..|s| - 1][..i] == s[..i];
    } else {
      i := |s| - 1;
    }
  }

  /** Arranged with q in front of its offset, the list is contiguous up to q. */
  lemma ArrangedReaches(fs: seq<Packet>, s: seq<Packet>, q: Packet, l: Packet) returns (i: nat)
    requires q in fs && Tiles(Below(fs, Offset(q)), Offset(q)) && Offset(q) <= Offset(l)
    requires SortedPermutation(fs, s) && SortedBy(s, Place(q, l))
    ensures i < |s| && s[i] == q && Chained(s, StoredLen, i + 1)
  {
    hide Offset, StoredLen, Readable, Sum, Below, CoveredOnce, Tiles;
    PermutationKeeps(fs, s);
    i := FirstAt(s, q);
    forall k | 0 <= k < |s| ensures Offset(s[k]) < Offset(q) <==> k < i {
      if k < i {
        assert s[k] in s[..i];
        assert Place(q, l)(s[k]) <= Place(q, l)(s[i]);
      }
    }
    BelowIsPrefix(s, Offset(q), i);
    PermutationBelow(fs, s, Offset(q));
    PermutationTiles(Below(fs, Offset(q)), s[..i], Offset(q));
    TilesChain(s, i, Offset(q), q, l);
  }

  /** Arranged with the highest fragment l behind its equals, the list ends with it. */
  lemma ArrangedEnds(fs: seq<Packet>, s: seq<Packet>, q: Packet, l: Packet)
    requires Highest(fs, l) && l != q && SortedPermutation(fs, s) && SortedBy(s, Place(q, l))
    ensures |s| > 0 && s[|s| - 1] == l
  {
    hide Offset, StoredLen;
    PermutationKeeps(fs, s);
    var k :| 0 <= k < |s| && s[k] == l;
    assert s[|s| - 1] in s;
    assert k < |s| - 1 ==> Place(q, l)(s[k]) <= Place(q, l)(s[|s| - 1]);
  }

  /** Fragments all of which start at byte 0 never pass the completion test. */
  lemma CompletedStartsLate(fs: seq<Packet>, l: Packet)
    requires Completed(fs) && Highest(fs, l) && forall p :: p in fs ==> IsFragment(p)
    ensures Offset(l) > 0
  {
    hide Offset, MoreFragments, Sum;
    assert LatestFinal(fs) in fs;
  }

  lemma StoredIsAnnounced(p: Packet)
    requires Offset(p) > 0
    ensures StoredEnd(p) == EndOf(p)
  {
  }

  lemma StrayEscapes(fs: seq<Packet>, q: Packet)
    requires Completed(fs) && Strays(fs, q) && forall p :: p in fs ==> IsFragment(p)
    ensures Allowed(fs, OutOfBounds)
  {
    hide Offset, StoredLen, Readable, Sum, Assemble, Below, CoveredOnce, Tiles, SumMatches, PayloadLen, IsFragment;
    var l := q;
    if !(Offset(q) > 0 && !Readable(q)) {
      l :| Highest(fs, l) && EndOf(l) < StoredEnd(q);
      CompletedStartsLate(fs, l);
      StoredIsAnnounced(l);
    }
    var s := Arranged(fs, q, l);
    ArrangedIsSorted(fs, q, l);
    var i := ArrangedReaches(fs, s, q, l);
    if l != q { ArrangedEnds(fs, s, q, l); }
    assert Escapes(q, s[|s| - 1]);
    AssembleEnds(s);
    assert SortedPermutation(fs, s) && |s| > 0 && OutOfBounds == Assemble(s);
  }

  /** For all fragments whatsoever: a copy can leave the new buffer or a container, for some order the
      sort may leave, if and only if the completion test passes and some fragment strays. */
  lemma CopyEscapesIff(fs: seq<Packet>)
    requires forall p :: p in fs ==> IsFragment(p)
    ensures Allowed(fs, OutOfBounds) <==> Completed(fs) && exists q :: Strays(fs, q)
  {
    hide Offset, StoredLen, Sum, Assemble, Strays, SumMatches, IsFragment, MoreFragments;
    if Allowed(fs, OutOfBounds) {
      var s: seq<Packet> :| SortedPermutation(fs, s) && |s| > 0 && OutOfBounds == Assemble(s);
      EscapeStrays(fs, s);
    }
    if q :| Completed(fs) && Strays(fs, q) {
      StrayEscapes(fs, q);
    }
  }

  // ---------- the same for unpadded opening fragments ----------

  /** The 32-bit test is an exact equation as long as the payload sum itself fits. */
  lemma CompletedSumIsExact(fs: seq<Packet>)
    requires Completed(fs) && 0 <= PayloadSum(fs) < UINT && forall p :: p in fs ==> PayloadLen(p) >= 0
    ensures PayloadSum(fs) == EndOf(LatestFinal(fs))
  {
    hide Sum;
    assert 0 <= EndOf(LatestFinal(fs)) < UINT;
  }

  lemma TilesSum(fs: seq<Packet>, n: nat)
    requires Tiles(fs, n)
    ensures Sum(fs, StoredLen) == n
  {
    hide Offset, StoredLen, Readable, Sum, CoveredOnce, Tiles;
    var none := Nowhere(fs);
    var s := Arranged(fs, none, none);
    ArrangedIsSorted(fs, none, none);
    PermutationKeeps(fs, s);
    PermutationTiles(fs, s, n);
    SumPermutation(fs, s, StoredLen);
    assert s[..|s|] == s;
    TilesChain(s, |s|, n, none, none);
  }

  /** Payload that starts at byte n or later. */
  function LenFrom(n: int): Packet -> int { p => if Offset(p) < n then 0 else PayloadLen(p) }

  lemma {:induction false} SumBelow(fs: seq<Packet>, n: int)
    ensures PayloadSum(fs) == PayloadSum(Below(fs, n)) + Sum(fs, LenFrom(n))
  {
    hide Offset, PayloadLen;
    if fs != [] {
      var init, last := fs[..|fs| - 1], fs[|fs| - 1];
      SumBelow(init, n);
      if Offset(last) < n {
        assert Below(fs, n)[..|Below(fs, n)| - 1] == Below(init, n);
      } else {
        assert Below(fs, n) == Below(init, n);
      }
    }
  }

  lemma BelowHolds(fs: seq<Packet>, n: int, p: Packet)
    ensures p in Below(fs, n) <==> p in fs && Offset(p) < n
  {
    hide Offset, Below;
    BelowCount(fs, n, p);
    assert p in fs <==> p in multiset(fs);
    assert p in Below(fs, n) <==> p in multiset(Below(fs, n));
  }

  lemma TilesEnd(fs: seq<Packet>, n: int, p: Packet)
    requires Tiles(fs, n) && p in fs
    ensures StoredEnd(p) <= n
  {
    hide Offset, StoredLen, Readable, Sum;
    if StoredLen(p) > 0 {
      var i :| 0 <= i < |fs| && fs[i] == p;
      CoverageAtLeast(fs, StoredLen, i, StoredEnd(p) - 1);
    }
  }

  /** Nothing is announced that the headers do not pay for: no padding in front, no negative lengths, no
      overflow of the 32-bit sum. */
  ghost predicate Plausible(fs: seq<Packet>) {
    && UnpaddedStart(fs) && PayloadSum(fs) < UINT
    && forall p :: p in fs ==> IsFragment(p) && PayloadLen(p) >= 0
  }

  /** At most 65557 fragments cannot overflow the sum. */
  lemma FewFragmentsFit(fs: seq<Packet>)
    requires |fs| <= MAX_FRAGMENTS
    ensures PayloadSum(fs) < UINT
  {
    SumAtMost(fs, PayloadLen, 65515);
    assert 65515 * |fs| <= 65515 * MAX_FRAGMENTS;
  }

  /** With the bytes below q tiled, the sum leaves room for q and one more fragment behind its start. */
  lemma SumBehind(fs: seq<Packet>, q: Packet, p: Packet)
    requires Completed(fs) && Plausible(fs) && q in fs && p in fs && Tiles(Below(fs, Offset(q)), Offset(q))
    ensures EndOf(q) <= EndOf(LatestFinal(fs))
    ensures p != q && Offset(p) >= Offset(q) ==> EndOf(q) + PayloadLen(p) <= EndOf(LatestFinal(fs))
  {
    hide Offset, PayloadLen, MoreFragments, IsFragment, StoredLen, Sum, LatestFinal, Tiles, SumMatches, Unpadded;
    var n, m := Offset(q), LatestFinal(fs);
    SumNonNegative(fs, PayloadLen);
    CompletedSumIsExact(fs);
    SumBelow(fs, n);
    forall p ensures p in Below(fs, n) ==> p in fs { BelowHolds(fs, n, p); }
    UnpaddedStores(Below(fs, n));
    TilesSum(Below(fs, n), n);
    assert forall i :: 0 <= i < |fs| ==> fs[i] in fs;
    SumAtLeastOne(fs, q, LenFrom(n));
    if p != q { SumAtLeastTwo(fs, q, p, LenFrom(n)); }
  }

  /** A copy that overruns the buffer is that of the final fragment. */
  lemma OverrunIsTheFinal(fs: seq<Packet>, q: Packet, l: Packet)
    requires Completed(fs) && Plausible(fs) && q in fs && Tiles(Below(fs, Offset(q)), Offset(q))
    requires Highest(fs, l) && EndOf(l) < EndOf(q)
    ensures q == LatestFinal(fs)
  {
    hide Offset, PayloadLen, MoreFragments, IsFragment, Sum, LatestFinal, Tiles, SumMatches, Unpadded;
    var m := LatestFinal(fs);
    SumBehind(fs, q, m);
    if Offset(m) < Offset(q) {
      BelowHolds(fs, Offset(q), m);
      TilesEnd(Below(fs, Offset(q)), Offset(q), m);
      UnpaddedStores(fs);
    }
  }

  /** The bytes before the final fragment are tiled, and another one starts inside it, behind all others. */
  ghost predicate CutShort(fs: seq<Packet>)
    requires Finals(fs) == 1
  {
    var m := LatestFinal(fs);
    && Tiles(Below(fs, Offset(m)), Offset(m))
    && (forall p :: p in fs ==> Offset(p) < EndOf(m))
    && exists e :: e in fs && e != m && Offset(e) >= Offset(m)
  }

  /** The bytes before q are tiled, and q announces more than its container holds. */
  ghost predicate ReadsBeyond(fs: seq<Packet>, q: Packet) {
    q in fs && Offset(q) > 0 && !Readable(q) && Tiles(Below(fs, Offset(q)), Offset(q))
  }

  lemma {:induction false} HighestExists(fs: seq<Packet>) returns (h: Packet)
    requires fs != []
    ensures Highest(fs, h)
  {
    hide Offset;
    var init, last := fs[..|fs| - 1], fs[|fs| - 1];
    assert fs == init + [last];
    if init == [] {
      h := last;
    } else {
      h := HighestExists(init);
      if Offset(h) < Offset(last) { h := last; }
    }
  }

  lemma CutShortStrays(fs: seq<Packet>)
    requires Completed(fs) && Plausible(fs) && CutShort(fs)
    ensures Strays(fs, LatestFinal(fs)) && exists e :: e in fs && PayloadLen(e) == 0
  {
    hide Offset, PayloadLen, MoreFragments, IsFragment, Sum, LatestFinal, Tiles, SumMatches, Unpadded, StoredLen;
    var m := LatestFinal(fs);
    var e :| e in fs && e != m && Offset(e) >= Offset(m);
    var h := HighestExists(fs);
    var l := if h == m then e else h;
    assert Highest(fs, l);
    SumBehind(fs, m, l);
    UnpaddedStores(fs);
  }

  lemma StrayIsCutOrUnreadable(fs: seq<Packet>, q: Packet)
    requires Completed(fs) && Plausible(fs) && Strays(fs, q)
    ensures CutShort(fs) || ReadsBeyond(fs, q)
  {
    hide Offset, PayloadLen, MoreFragments, IsFragment, Sum, LatestFinal, Tiles, SumMatches, Unpadded,
      StoredLen, Readable;
    UnpaddedStores(fs);
    if !ReadsBeyond(fs, q) {
      var l :| Highest(fs, l) && EndOf(l) < StoredEnd(q);
      OverrunIsTheFinal(fs, q, l);
    }
  }

  lemma UnreadableStrays(fs: seq<Packet>, q: Packet)
    requires ReadsBeyond(fs, q)
    ensures Strays(fs, q)
  {
  }

  /** With an unpadded opening fragment and an exact sum, a copy can leave its bounds if and only if the
      completion test passes and, behind a tiled start, either a fragment announces more than its
      container holds or an empty one starts inside the final one. The second needs an empty fragment. */
  lemma CopiesStayInside(fs: seq<Packet>)
    requires Plausible(fs)
    ensures Allowed(fs, OutOfBounds) <==> Completed(fs) && (CutShort(fs) || exists q :: ReadsBeyond(fs, q))
    ensures Completed(fs) && CutShort(fs) ==> exists e :: e in fs && PayloadLen(e) == 0
    ensures Sound(fs) ==> !Allowed(fs, OutOfBounds)
  {
    hide Offset, PayloadLen, MoreFragments, IsFragment, Sum, LatestFinal, Tiles, SumMatches, Unpadded,
      StoredLen, Readable,
      Assemble, Strays, CutShort;
    CopyEscapesIff(fs);
    if Completed(fs) {
      if CutShort(fs) { CutShortStrays(fs); }
      if q :| ReadsBeyond(fs, q) { UnreadableStrays(fs, q); }
      if q :| Strays(fs, q) { StrayIsCutOrUnreadable(fs, q); }
    }
  }

  // ---------- when a frame can come out ----------

  lemma PlacedIsReadable(s: seq<Packet>, b: Network.Frame)
    requires |s| > 0 && Placed(s, |s|, b) && Offset(s[0]) == 0
    ensures forall k :: 0 <= k < |s| && Offset(s[k]) > 0 ==> Readable(s[k])
  {
    hide Offset, Readable, Payload;
  }

  lemma FrameTiles(fs: seq<Packet>, s: seq<Packet>, b: Network.Frame) returns (l: Packet)
    requires SortedPermutation(fs, s) && |s| > 1 && Assemble(s) == Frame(b)
    ensures Highest(fs, l) && Tiles(fs, EndOf(l)) && |b| == HEADERS + EndOf(l)
  {
    hide Offset, StoredLen, Sum, Assemble, Tiles, CarriedBy, EndOf, Unpadded;
    l := s[|s| - 1];
    AssembledIsChained(s, b);
    AssembledEnd(s, b);
    PermutationKeeps(fs, s);
    PlacedIsReadable(s, b);
    assert s[|s| - 1] in s;
    ChainTiles(s, |s|);
    assert s[..|s|] == s;
    PermutationTiles(fs, s, EndOf(l));
  }

  lemma HighestEndsLate(fs: seq<Packet>, l: Packet)
    requires l in fs && Offset(l) > 0 && Tiles(fs, EndOf(l))
    ensures EndOf(l) >= 0
  {
  }

  lemma TilesAssemble(fs: seq<Packet>, l: Packet)
    requires Completed(fs) && Highest(fs, l) && Tiles(fs, EndOf(l)) && forall p :: p in fs ==> IsFragment(p)
    ensures exists b :: Allowed(fs, Frame(b)) && |b| == HEADERS + EndOf(l)
  {
    hide Offset, StoredLen, Readable, Sum, Assemble, CoveredOnce, SumMatches, PayloadLen, IsFragment, Unpadded;
    var none := Nowhere(fs);
    var s := Arranged(fs, none, none);
    ArrangedIsSorted(fs, none, none);
    PermutationKeeps(fs, s);
    PermutationTiles(fs, s, EndOf(l));
    assert s[..|s|] == s;
    CompletedStartsLate(fs, l);
    assert forall k :: 0 <= k < |s| ==> s[k] in s;
    HighestEndsLate(fs, l);
    TilesChain(s, |s|, EndOf(l), none, none);
    assert Highest(fs, s[|s| - 1]);
    StoredIsAnnounced(s[|s| - 1]);
    ChainedIsAssembled(s);
    var b := Assemble(s).bytes;
    AssembledIsChained(s, b);
    assert SortedPermutation(fs, s) && |s| > 0 && Frame(b) == Assemble(s);
  }

  lemma LongerThanOne(fs: seq<Packet>, s: seq<Packet>, b: Network.Frame)
    requires SortedPermutation(fs, s) && |s| > 0 && Assemble(s) == Frame(b) && Completed(fs)
    requires forall p :: p in fs ==> IsFragment(p)
    ensures |s| > 1
  {
    hide Offset, Sum, MoreFragments, AssembleRest, SumMatches;
    PermutationKeeps(fs, s);
    assert LatestFinal(fs) in s && s[0] in s;
  }

  /** For all fragments whatsoever: a frame can come out, for some order the sort may leave, if and only if
      the completion test passes and the fragments tile the bytes up to the end of a highest one. */
  lemma FrameComesIff(fs: seq<Packet>, length: nat)
    requires forall p :: p in fs ==> IsFragment(p)
    ensures (exists b :: Allowed(fs, Frame(b)) && |b| == length)
      <==> Completed(fs) && exists l :: Highest(fs, l) && Tiles(fs, EndOf(l)) && length == HEADERS + EndOf(l)
  {
    hide Offset, StoredLen, Sum, Assemble, Tiles, SumMatches, IsFragment, EndOf;
    if b :| Allowed(fs, Frame(b)) && |b| == length {
      var s: seq<Packet> :| SortedPermutation(fs, s) && |s| > 0 && Frame(b) == Assemble(s);
      LongerThanOne(fs, s, b);
      var l := FrameTiles(fs, s, b);
    }
    if l :| Completed(fs) && Highest(fs, l) && Tiles(fs, EndOf(l)) && length == HEADERS + EndOf(l) {
      TilesAssemble(fs, l);
    }
  }
}
