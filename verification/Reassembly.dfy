/** The meaning of one `addFragment` call on the list of fragments of one datagram:
    the completion test, the assembly of a sorted list, and what both amount to. */
module Reassembly {
  import opened Bytes
  import opened Network
  import opened Sums

  const UINT := 0x1_0000_0000        // 2^32, the range of `uint`
  const HEADERS := ETHER_HEADER + IP_HEADER
  const MAX_FRAGMENTS := 65557       // up to this many fragments the 32-bit payload sum cannot wrap

  /** The container `addFragment` returns. All but `Frame` are the null container, told apart by
      the branch that returned it; `OutOfBounds` names the case in which a copy would leave the
      new buffer or the fragment's own container, of which nothing is promised. */
  datatype Outcome = Pending | Purged | Rejected | OutOfBounds | Frame(bytes: Network.Frame)

  // ---------- the completion test ----------

  function FinalMark(p: Packet): int { if MoreFragments(p) then 0 else 1 }
  function PayloadSum(fs: seq<Packet>): int { Sum(fs, PayloadLen) }
  function Finals(fs: seq<Packet>): int { Sum(fs, FinalMark) }

  lemma FinalsNonNegative(fs: seq<Packet>)
    ensures 0 <= Finals(fs)
  {
    SumNonNegative(fs, FinalMark);
  }

  /** The most recently received fragment without the MF flag. */
  function LatestFinal(fs: seq<Packet>): (p: Packet)
    requires Finals(fs) > 0
    ensures p in fs && !MoreFragments(p)
  {
    var last := fs[|fs| - 1];
    if MoreFragments(last) then LatestFinal(fs[..|fs| - 1]) else last
  }

  predicate SumMatches(fs: seq<Packet>)
    requires Finals(fs) > 0
  {
    EndOf(LatestFinal(fs)) % UINT == PayloadSum(fs) % UINT
  }

  predicate Completed(fs: seq<Packet>) { Finals(fs) == 1 && SumMatches(fs) }

  // ---------- the assembly ----------

  predicate Sorted(s: seq<Packet>) {
    forall i, j :: 0 <= i < j < |s| ==> Offset(s[i]) <= Offset(s[j])
  }

  /** Any result `std::sort` by offset may leave: the sort is not stable. */
  ghost predicate SortedPermutation(fs: seq<Packet>, s: seq<Packet>) {
    Sorted(s) && multiset(s) == multiset(fs)
  }

  predicate SortedBy(s: seq<Packet>, key: Packet -> int) {
    forall i, j :: 0 <= i < j < |s| ==> key(s[i]) <= key(s[j])
  }

  function Insert(t: seq<Packet>, p: Packet, key: Packet -> int): seq<Packet> {
    if t == [] || key(t[|t| - 1]) <= key(p) then t + [p]
    else Insert(t[..|t| - 1], p, key) + [t[|t| - 1]]
  }

  /** One way to sort: what shows that a sorted permutation always exists. */
  function InsertionSort(fs: seq<Packet>, key: Packet -> int): seq<Packet> {
    if fs == [] then [] else Insert(InsertionSort(fs[..|fs| - 1], key), fs[|fs| - 1], key)
  }

  lemma {:induction false} InsertedIsOld(t: seq<Packet>, p: Packet, key: Packet -> int, i: nat)
    requires i < |Insert(t, p, key)|
    ensures Insert(t, p, key)[i] == p || Insert(t, p, key)[i] in t
  {
    if t != [] && key(t[|t| - 1]) > key(p) && i < |Insert(t[..|t| - 1], p, key)| {
      InsertedIsOld(t[..|t| - 1], p, key, i);
    }
  }

  lemma {:induction false} InsertSorts(t: seq<Packet>, p: Packet, key: Packet -> int)
    requires SortedBy(t, key)
    ensures SortedBy(Insert(t, p, key), key) && multiset(Insert(t, p, key)) == multiset(t) + multiset{p}
  {
    if t != [] && key(t[|t| - 1]) > key(p) {
      var init, last := t[..|t| - 1], t[|t| - 1];
      InsertSorts(init, p, key);
      assert t == init + [last];
      var r := Insert(init, p, key);
      forall i | 0 <= i < |r| ensures key(r[i]) <= key(last) {
        InsertedIsOld(init, p, key, i);
      }
    }
  }

  lemma {:induction false} InsertionSortSorts(fs: seq<Packet>, key: Packet -> int)
    ensures SortedBy(InsertionSort(fs, key), key) && multiset(InsertionSort(fs, key)) == multiset(fs)
  {
    if fs != [] {
      InsertionSortSorts(fs[..|fs| - 1], key);
      InsertSorts(InsertionSort(fs[..|fs| - 1], key), fs[|fs| - 1], key);
      assert fs == fs[..|fs| - 1] + [fs[|fs| - 1]];
    }
  }

  /** The key of `std::sort`. */
  function ByOffset(): Packet -> int { p => Offset(p) }

  lemma SortedPermutationExists(fs: seq<Packet>)
    ensures SortedPermutation(fs, InsertionSort(fs, ByOffset()))
  {
    hide Offset;
    var s := InsertionSort(fs, ByOffset());
    InsertionSortSorts(fs, ByOffset());
    forall i, j | 0 <= i < j < |s| ensures Offset(s[i]) <= Offset(s[j]) {
      assert ByOffset()(s[i]) <= ByOffset()(s[j]);
    }
  }

  function Assemble(s: seq<Packet>): Outcome
    requires |s| > 0
  {
    var last := s[|s| - 1];
    var total := ETHER_HEADER + Offset(last) + TotLen(last);
    if Offset(s[0]) != 0 then Rejected
    else if |s[0].bytes| > total then OutOfBounds
    else AssembleRest(s, 1, s[0].bytes, total)
  }

  /** The copy loop from fragment i on, with `written` already in a buffer of `total` bytes. */
  function AssembleRest(s: seq<Packet>, i: nat, written: Network.Frame, total: nat): Outcome
    requires i <= |s|
    decreases |s| - i
  {
    if i == |s| then Frame(written)
    else if Offset(s[i]) + HEADERS != |written| then Rejected
    else if !Readable(s[i]) || |written| + PayloadLen(s[i]) > total then OutOfBounds
    else AssembleRest(s, i + 1, written + Payload(s[i]), total)
  }

  /** What the call may return once the new fragment has been appended, giving `fs`. */
  ghost predicate Allowed(fs: seq<Packet>, out: Outcome) {
    && |fs| > 0
    && if Finals(fs) > 1 then out == Purged
       else if Completed(fs) then exists s :: SortedPermutation(fs, s) && |s| > 0 && out == Assemble(s)
       else out == Pending
  }

  // ---------- the reference: an exact tiling, stated without any order ----------

  /** Does a fragment that carries len bytes carry byte j? */
  function CoverMark(len: Packet -> int, j: int): Packet -> int {
    p => if Offset(p) <= j < Offset(p) + len(p) then 1 else 0
  }

  /** How many fragments carry byte j of the datagram's payload. */
  function Coverage(fs: seq<Packet>, len: Packet -> int, j: int): int { Sum(fs, CoverMark(len, j)) }

  /** Every byte below n is carried by exactly one fragment and no byte outside by any. */
  ghost predicate CoveredOnce(fs: seq<Packet>, len: Packet -> int, n: int) {
    forall j :: Coverage(fs, len, j) == if 0 <= j < n then 1 else 0
  }

  /** The same of the payloads as the headers announce them. */
  ghost predicate ExactCover(fs: seq<Packet>, n: int) { CoveredOnce(fs, PayloadLen, n) }

  /** Every fragment carries data, and its container holds them. */
  ghost predicate Filled(fs: seq<Packet>) {
    forall p :: p in fs ==> Readable(p) && PayloadLen(p) > 0
  }

  /** Filled, and few enough that the 32-bit payload sum is exact. */
  ghost predicate Sound(fs: seq<Packet>) { |fs| <= MAX_FRAGMENTS && Filled(fs) }

  /** The fragment that opens the datagram came without Ethernet padding. */
  ghost predicate UnpaddedStart(fs: seq<Packet>) {
    forall p :: p in fs && Offset(p) == 0 ==> Unpadded(p)
  }

  // ---------- sums ----------

  lemma SumIsExact(fs: seq<Packet>)
    requires Sound(fs)
    ensures |fs| <= PayloadSum(fs) < UINT
  {
    SumAtLeastLength(fs, PayloadLen);
    SumAtMost(fs, PayloadLen, 65515);
    assert 65515 * |fs| <= 65515 * MAX_FRAGMENTS;
  }

  lemma SumPositions(s: seq<Packet>, i: nat, j: nat)
    requires i <= j <= |s|
    requires forall k :: 0 <= k < |s| ==> PayloadLen(s[k]) > 0
    ensures PayloadSum(s[..j]) - PayloadSum(s[..i]) >= j - i
  {
    assert s[..j] == s[..i] + s[i..j];
    SumConcat(s[..i], s[i..j], PayloadLen);
    SumAtLeastLength(s[i..j], PayloadLen);
  }

  /** With one final fragment in the list, there is no doubt which it is. */
  lemma FinalIsUnique(fs: seq<Packet>, p: Packet, q: Packet)
    requires Finals(fs) == 1 && p in fs && q in fs && !MoreFragments(p) && !MoreFragments(q)
    ensures p == q
  {
    var i :| 0 <= i < |fs| && fs[i] == p;
    var j :| 0 <= j < |fs| && fs[j] == q;
    if i != j {
      var rest := fs[..i] + fs[i + 1..];
      SumPick(fs, i, FinalMark);
      var j' := if j < i then j else j - 1;
      assert rest[j'] == q;
      SumPick(rest, j', FinalMark);
      FinalsNonNegative(rest[..j'] + rest[j' + 1..]);
      assert false;
    }
  }

  lemma FinalOfPermutation(fs: seq<Packet>, s: seq<Packet>)
    requires multiset(fs) == multiset(s) && Finals(fs) == 1
    ensures Finals(s) == 1 && LatestFinal(s) == LatestFinal(fs)
    ensures PayloadSum(s) == PayloadSum(fs)
  {
    SumPermutation(fs, s, FinalMark);
    SumPermutation(fs, s, PayloadLen);
    assert LatestFinal(fs) in multiset(s);
    FinalIsUnique(s, LatestFinal(fs), LatestFinal(s));
  }

  lemma CoverageOfPermutation(fs: seq<Packet>, s: seq<Packet>, len: Packet -> int, n: int)
    requires multiset(fs) == multiset(s)
    ensures CoveredOnce(fs, len, n) <==> CoveredOnce(s, len, n)
  {
    forall j ensures Coverage(fs, len, j) == Coverage(s, len, j) {
      SumPermutation(fs, s, CoverMark(len, j));
    }
  }

  // ---------- sorted and contiguous is the same as an exact cover ----------

  /** Each of the first i fragments starts where what the fragments before it carry ends. */
  ghost predicate Chained(s: seq<Packet>, len: Packet -> int, i: nat)
    requires i <= |s|
  {
    forall k :: 0 <= k < i ==> Offset(s[k]) == Sum(s[..k], len)
  }

  /** A fragment that carries nothing does not stand behind one that covers its offset. */
  predicate Settled(s: seq<Packet>, len: Packet -> int) {
    forall k, m :: 0 <= k < m < |s| && len(s[m]) == 0 ==> !(Offset(s[k]) <= Offset(s[m]) < Offset(s[k]) + len(s[k]))
  }

  /** No fragment carries less than nothing, and none that carries nothing starts beyond n. */
  predicate Measured(s: seq<Packet>, len: Packet -> int, n: int) {
    forall k :: 0 <= k < |s| ==> len(s[k]) > 0 || (len(s[k]) == 0 && Offset(s[k]) <= n)
  }

  lemma {:induction false} ChainCovers(s: seq<Packet>, len: Packet -> int, i: nat)
    requires i <= |s| && Chained(s, len, i)
    requires forall k :: 0 <= k < i ==> len(s[k]) >= 0
    ensures 0 <= Sum(s[..i], len) && CoveredOnce(s[..i], len, Sum(s[..i], len))
  {
    if i > 0 {
      ChainCovers(s, len, i - 1);
      SumTake(s, i - 1, len);
      forall j ensures Coverage(s[..i], len, j) == Coverage(s[..i - 1], len, j) + CoverMark(len, j)(s[i - 1]) {
        SumTake(s, i - 1, CoverMark(len, j));
      }
    }
  }

  lemma CoverageAtLeast(s: seq<Packet>, len: Packet -> int, i: nat, j: int)
    requires i < |s|
    ensures Coverage(s, len, j) >= Coverage(s[..i], len, j) + CoverMark(len, j)(s[i])
    ensures Coverage(s[..i], len, j) >= 0
  {
    SumPick(s, i, CoverMark(len, j));
    SumNonNegative(s[..i], CoverMark(len, j));
    SumNonNegative(s[i + 1..], CoverMark(len, j));
  }

  lemma CoverageBefore(s: seq<Packet>, len: Packet -> int, i: nat, j: int)
    requires i < |s| && Sorted(s) && j < Offset(s[i])
    ensures Coverage(s, len, j) == Coverage(s[..i], len, j)
  {
    SumSplit(s, i, CoverMark(len, j));
    SumZero(s[i..], CoverMark(len, j));
  }

  /** A covered byte lies in some fragment. */
  lemma CoveredByOne(fs: seq<Packet>, len: Packet -> int, j: int) returns (k: nat)
    requires Coverage(fs, len, j) != 0
    ensures k < |fs| && Offset(fs[k]) <= j < Offset(fs[k]) + len(fs[k])
  {
    if forall i :: 0 <= i < |fs| ==> CoverMark(len, j)(fs[i]) == 0 { SumZero(fs, CoverMark(len, j)); }
    k :| 0 <= k < |fs| && CoverMark(len, j)(fs[k]) != 0;
  }

  /** A fragment starting before the end of the chain would cover a byte twice, or stand inside another. */
  lemma NoOverlap(s: seq<Packet>, len: Packet -> int, i: nat, n: int)
    requires i < |s| && Chained(s, len, i) && CoveredOnce(s, len, n) && Measured(s, len, n) && Settled(s, len)
    ensures Offset(s[i]) >= Sum(s[..i], len)
  {
    ChainCovers(s, len, i);
    CoverageAtLeast(s, len, i, Offset(s[i]));
    if Offset(s[i]) < Sum(s[..i], len) {
      var k := CoveredByOne(s[..i], len, Offset(s[i]));
    }
  }

  /** A fragment starting after the end of the chain would leave a byte uncovered. */
  lemma NoGap(s: seq<Packet>, len: Packet -> int, i: nat, n: int)
    requires i < |s| && Chained(s, len, i) && CoveredOnce(s, len, n) && Measured(s, len, n) && Sorted(s)
    ensures Offset(s[i]) <= Sum(s[..i], len)
  {
    ChainCovers(s, len, i);
    CoverageAtLeast(s, len, i, Offset(s[i]));
    assert Offset(s[i]) <= n;
    var e := Sum(s[..i], len);
    if e < Offset(s[i]) {
      CoverageBefore(s, len, i, e);
    }
  }

  lemma {:induction false} CoverChains(s: seq<Packet>, len: Packet -> int, i: nat, n: int)
    requires i <= |s| && CoveredOnce(s, len, n) && Sorted(s) && Measured(s, len, n) && Settled(s, len)
    ensures Chained(s, len, i)
  {
    if i > 0 {
      CoverChains(s, len, i - 1, n);
      NoOverlap(s, len, i - 1, n);
      NoGap(s, len, i - 1, n);
    }
  }

  /** For a sorted and settled list: contiguous from zero, with n bytes in all, exactly when every byte
      below n is carried once and none beyond. */
  lemma ChainedIffCovered(s: seq<Packet>, len: Packet -> int, n: nat)
    requires Sorted(s) && Measured(s, len, n) && Settled(s, len)
    ensures Chained(s, len, |s|) && Sum(s, len) == n <==> CoveredOnce(s, len, n)
  {
    assert s[..|s|] == s;
    if Chained(s, len, |s|) {
      ChainCovers(s, len, |s|);
    }
    if CoveredOnce(s, len, n) {
      CoverChains(s, len, |s|, n);
      ChainCovers(s, len, |s|);
      var e := Sum(s, len);
      assert Coverage(s, len, e) == 0 && Coverage(s, len, n) == 0;
      assert e < n ==> Coverage(s, len, e) == 1;
      assert n < e ==> Coverage(s, len, n) == 1;
    }
  }

  /** So it is for the payloads of fragments none of which is empty. */
  lemma ContiguousIffExactCover(s: seq<Packet>, n: nat)
    requires Sorted(s)
    requires forall k :: 0 <= k < |s| ==> PayloadLen(s[k]) > 0
    ensures Chained(s, PayloadLen, |s|) && PayloadSum(s) == n <==> ExactCover(s, n)
  {
    hide Offset, PayloadLen, Sum;
    ChainedIffCovered(s, PayloadLen, n);
  }
}
