/** The fragment store as one map from fragment key to the fragments received under it:
    what single calls and whole runs of `addFragment` do to it. */
module StoreRuns {
  import opened Bits
  import Bytes
  import opened Network
  import opened Sums
  import opened Reassembly
  import opened Assembly

  type Store = map<nat, seq<Packet>>

  function GenerateFragmentID(srcIP: nat, fragID: nat): nat {
    BitOr(fragID, ShiftLeft(srcIP, 16))
  }

  function Key(p: Packet): nat { GenerateFragmentID(SrcIP(p), IpId(p)) }

  function Entry(s: Store, k: nat): seq<Packet> { if k in s then s[k] else [] }

  function Put(s: Store, k: nat, fs: seq<Packet>): Store { s[k := fs] }
  function Drop(s: Store, k: nat): Store { s - {k} }

  /** The list leaves the store: purged, delivered, rejected or out of bounds. */
  predicate Leaves(fs: seq<Packet>) { Finals(fs) > 1 || Completed(fs) }

  function Next(s: Store, p: Packet): Store {
    var fs := Entry(s, Key(p)) + [p];
    if Leaves(fs) then Drop(s, Key(p)) else Put(s, Key(p), fs)
  }

  /** The containers freed by the call. */
  function ReleasedBy(s: Store, p: Packet): seq<Packet> {
    var fs := Entry(s, Key(p)) + [p];
    if Leaves(fs) then fs else []
  }

  function After(s: Store, ps: seq<Packet>): Store {
    if ps == [] then s else Next(After(s, ps[..|ps| - 1]), ps[|ps| - 1])
  }

  function ReleasedOver(s: Store, ps: seq<Packet>): seq<Packet> {
    if ps == [] then []
    else ReleasedOver(s, ps[..|ps| - 1]) + ReleasedBy(After(s, ps[..|ps| - 1]), ps[|ps| - 1])
  }

  /** The counter of attempted reassemblies after the call. */
  function Counted(s: Store, p: Packet, counter: nat): nat {
    (counter + if Completed(Entry(s, Key(p)) + [p]) then 1 else 0) % UINT
  }

  function CountedOver(s: Store, ps: seq<Packet>, counter: nat): nat {
    if ps == [] then counter
    else Counted(After(s, ps[..|ps| - 1]), ps[|ps| - 1], CountedOver(s, ps[..|ps| - 1], counter))
  }

  /** The arrivals under one key. */
  function Only(ps: seq<Packet>, k: nat): seq<Packet> {
    if ps == [] then []
    else Only(ps[..|ps| - 1], k) + (if Key(ps[|ps| - 1]) == k then [ps[|ps| - 1]] else [])
  }

  // ---------- the key ----------

  lemma PackedKey(srcIP: nat, fragID: nat)
    requires fragID < 0x1_0000
    ensures GenerateFragmentID(srcIP, fragID) == srcIP * 0x1_0000 + fragID
  {
    Shift16(srcIP);
    OrIntoClearedBits(srcIP, fragID, 16);
  }

  lemma IdBound(p: Packet)
    ensures IpId(p) < 0x1_0000
  {
    hide Bytes.Load16Le;
  }

  /** No two (source, identification) pairs share a key. */
  lemma KeyIsInjective(p: Packet, q: Packet)
    ensures Key(p) == Key(q) <==> SrcIP(p) == SrcIP(q) && IpId(p) == IpId(q)
  {
    hide GenerateFragmentID, SrcIP, IpId;
    IdBound(p);
    IdBound(q);
    PackedKey(SrcIP(p), IpId(p));
    PackedKey(SrcIP(q), IpId(q));
  }

  // ---------- the state between calls ----------

  /** An entry as any run leaves it: its own fragments only, none of them enough. */
  predicate Incomplete(k: nat, fs: seq<Packet>) {
    fs != [] && Finals(fs) <= 1 && !Completed(fs) && forall p :: p in fs ==> Key(p) == k && IsFragment(p)
  }

  predicate Consistent(s: Store) { forall k :: k in s ==> Incomplete(k, s[k]) }

  lemma NextIsConsistent(s: Store, p: Packet)
    requires Consistent(s) && IsFragment(p)
    ensures Consistent(Next(s, p))
  {
    hide Sum, IsFragment, SumMatches;
    FinalsNonNegative(Entry(s, Key(p)) + [p]);
  }

  lemma {:induction false} AfterIsConsistent(s: Store, ps: seq<Packet>)
    requires Consistent(s) && forall p :: p in ps ==> IsFragment(p)
    ensures Consistent(After(s, ps))
  {
    if ps != [] {
      AfterIsConsistent(s, ps[..|ps| - 1]);
      NextIsConsistent(After(s, ps[..|ps| - 1]), ps[|ps| - 1]);
    }
  }

  /** The counter of final fragments, an 8-bit integer, never has to count past two. */
  lemma FinalsNeverExceedTwo(s: Store, p: Packet)
    requires Consistent(s)
    ensures 0 <= Finals(Entry(s, Key(p)) + [p]) <= 2
  {
    hide Key;
    var fs := Entry(s, Key(p));
    SumConcat(fs, [p], FinalMark);
    SumSingle(p, FinalMark);
    FinalsNonNegative(fs);
    assert fs == [] ==> Finals(fs) == 0;
  }

  lemma ShiftedResidue(a: int, d: int)
    requires 0 < d < UINT
    ensures (d + a) % UINT != a % UINT
  {
    var q, r := a / UINT, a % UINT;
    assert a == q * UINT + r;
    assert d + a == q * UINT + (r + d);
    if r + d < UINT {
      assert (d + a) / UINT == q;
    } else {
      assert (d + a) / UINT == q + 1;
    }
  }

  /** Reassembly is only ever attempted on two fragments or more. */
  lemma AttemptHasTwoFragments(s: Store, p: Packet)
    requires Consistent(s) && IsFragment(p) && Completed(Entry(s, Key(p)) + [p])
    ensures |Entry(s, Key(p))| >= 1
  {
    hide Key, Bytes.Load16Be;
    var fs := Entry(s, Key(p)) + [p];
    if |fs| == 1 {
      assert fs == [p];
      SumSingle(p, PayloadLen);
      SumSingle(p, FinalMark);
      assert LatestFinal(fs) == p;
      assert EndOf(p) % UINT == PayloadLen(p) % UINT;
      assert 0 < Offset(p) < UINT;
      ShiftedResidue(PayloadLen(p), Offset(p));
    }
  }

  // ---------- datagrams do not interfere ----------

  lemma OtherKeysUntouched(s: Store, p: Packet, k: nat)
    requires Key(p) != k
    ensures (k in Next(s, p) <==> k in s) && Entry(Next(s, p), k) == Entry(s, k)
  {
  }

  lemma SameKeySameStep(s: Store, t: Store, p: Packet)
    requires Entry(s, Key(p)) == Entry(t, Key(p))
    ensures Key(p) in Next(s, p) <==> Key(p) in Next(t, p)
    ensures Entry(Next(s, p), Key(p)) == Entry(Next(t, p), Key(p))
    ensures ReleasedBy(s, p) == ReleasedBy(t, p)
  {
  }

  /** What a key holds after any interleaving is what the arrivals under that key alone leave. */
  lemma {:induction false} NonInterference(s: Store, t: Store, ps: seq<Packet>, k: nat)
    requires (k in s <==> k in t) && Entry(s, k) == Entry(t, k)
    ensures k in After(s, ps) <==> k in After(t, Only(ps, k))
    ensures Entry(After(s, ps), k) == Entry(After(t, Only(ps, k)), k)
  {
    hide Key, Leaves;
    if ps != [] {
      var init, p := ps[..|ps| - 1], ps[|ps| - 1];
      NonInterference(s, t, init, k);
      if Key(p) == k {
        assert Only(ps, k)[..|Only(ps, k)| - 1] == Only(init, k);
        SameKeySameStep(After(s, init), After(t, Only(init, k)), p);
      } else {
        OtherKeysUntouched(After(s, init), p, k);
        assert Only(ps, k) == Only(init, k);
      }
    }
  }

  /** So are the outcomes each call under the key may have. */
  lemma OutcomesDoNotInterfere(s: Store, t: Store, ps: seq<Packet>, j: nat, out: Outcome)
    requires j < |ps| && (Key(ps[j]) in s <==> Key(ps[j]) in t) && Entry(s, Key(ps[j])) == Entry(t, Key(ps[j]))
    ensures var k := Key(ps[j]);
      && var mixed, alone := Entry(After(s, ps[..j]), k), Entry(After(t, Only(ps[..j], k)), k);
      (Allowed(mixed + [ps[j]], out) <==> Allowed(alone + [ps[j]], out))
  {
    hide Key, Allowed, After, Only;
    NonInterference(s, t, ps[..j], Key(ps[j]));
  }

  lemma {:induction false} OnlyOfConcat(ps: seq<Packet>, qs: seq<Packet>, k: nat)
    ensures Only(ps + qs, k) == Only(ps, k) + Only(qs, k)
    decreases |qs|
  {
    hide Key;
    if qs == [] {
      assert ps + qs == ps;
    } else {
      assert (ps + qs)[..|ps + qs| - 1] == ps + qs[..|qs| - 1];
      OnlyOfConcat(ps, qs[..|qs| - 1], k);
    }
  }

  lemma {:induction false} OnlyOfOneKey(ps: seq<Packet>, k: nat, j: nat)
    requires forall p :: p in ps ==> Key(p) == j
    ensures Only(ps, k) == if j == k then ps else []
  {
    hide Key;
    if ps != [] {
      OnlyOfOneKey(ps[..|ps| - 1], k, j);
      assert ps[|ps| - 1] in ps;
    }
  }

  /** What a call frees has the call's own key. */
  lemma ReleasedHasKey(s: Store, p: Packet)
    requires Consistent(s)
    ensures forall q :: q in ReleasedBy(s, p) ==> Key(q) == Key(p)
  {
    hide Key, Leaves, Finals, Completed, IsFragment;
  }

  /** And so are the containers freed under the key, in order. */
  lemma {:induction false} ReleasesDoNotInterfere(s: Store, t: Store, ps: seq<Packet>, k: nat)
    requires Consistent(s) && (k in s <==> k in t) && Entry(s, k) == Entry(t, k)
    requires forall p :: p in ps ==> IsFragment(p)
    ensures Only(ReleasedOver(s, ps), k) == ReleasedOver(t, Only(ps, k))
  {
    hide Key, Leaves, IsFragment, Consistent, ReleasedBy, Next;
    if ps != [] {
      var init, p := ps[..|ps| - 1], ps[|ps| - 1];
      ReleasesDoNotInterfere(s, t, init, k);
      AfterIsConsistent(s, init);
      ReleasedHasKey(After(s, init), p);
      OnlyOfConcat(ReleasedOver(s, init), ReleasedBy(After(s, init), p), k);
      OnlyOfOneKey(ReleasedBy(After(s, init), p), k, Key(p));
      NonInterference(s, t, init, k);
      if Key(p) == k {
        assert Only(ps, k)[..|Only(ps, k)| - 1] == Only(init, k);
        SameKeySameStep(After(s, init), After(t, Only(init, k)), p);
      } else {
        assert Only(ps, k) == Only(init, k);
      }
    }
  }

  /** Calls under different keys commute, in what they leave and in what they free. */
  lemma DifferentKeysCommute(s: Store, p: Packet, q: Packet)
    requires Key(p) != Key(q)
    ensures Next(Next(s, p), q) == Next(Next(s, q), p)
    ensures ReleasedBy(Next(s, p), q) == ReleasedBy(s, q)
  {
    hide Key, Leaves;
  }

  // ---------- the counter of reassembled frames ----------

  /** The calls of the run may have these outcomes. */
  ghost predicate MayGive(s: Store, ps: seq<Packet>, outs: seq<Outcome>) {
    && |outs| == |ps|
    && forall i :: 0 <= i < |ps| ==> Allowed(Entry(After(s, ps[..i]), Key(ps[i])) + [ps[i]], outs[i])
  }

  function FrameMark(): Outcome -> int { (out: Outcome) => if out.Frame? then 1 else 0 }
  function RejectionMark(): Outcome -> int { (out: Outcome) => if out.Rejected? then 1 else 0 }
  function EscapeMark(): Outcome -> int { (out: Outcome) => if out.OutOfBounds? then 1 else 0 }

  lemma AddThenReduce(a: int, b: int)
    ensures (a % UINT + b) % UINT == (a + b) % UINT
  {
    var q := a / UINT;
    var q' := (a % UINT + b) / UINT;
    assert a + b == (q + q') * UINT + (a % UINT + b) % UINT;
  }

  function EndMarks(out: Outcome): int { FrameMark()(out) + RejectionMark()(out) + EscapeMark()(out) }

  /** One call counts if it ends in one of the three ways. */
  lemma CountedByOutcome(s: Store, p: Packet, out: Outcome, counter: nat, rest: int)
    requires Allowed(Entry(s, Key(p)) + [p], out) && counter == rest % UINT
    ensures Counted(s, p, counter) == (rest + EndMarks(out)) % UINT
  {
    hide Key, Allowed, Completed;
    AttemptOutcome(Entry(s, Key(p)) + [p], out);
    AddThenReduce(rest, EndMarks(out));
  }

  /** Over any run the counter grows by the frames, the rejections and the undefined copies together,
      modulo 2^32. */
  lemma {:induction false} CounterCountsAttempts(s: Store, ps: seq<Packet>, outs: seq<Outcome>, counter: nat)
    requires MayGive(s, ps, outs) && counter < UINT
    ensures CountedOver(s, ps, counter)
      == (counter + Sum(outs, FrameMark()) + Sum(outs, RejectionMark()) + Sum(outs, EscapeMark())) % UINT
  {
    hide Key, Allowed, After, Counted;
    if ps != [] {
      var init, n := ps[..|ps| - 1], |ps| - 1;
      assert forall i :: 0 <= i < n ==> init[..i] == ps[..i];
      CounterCountsAttempts(s, init, outs[..n], counter);
      var ends := Sum(outs[..n], FrameMark()) + Sum(outs[..n], RejectionMark()) + Sum(outs[..n], EscapeMark());
      CountedByOutcome(After(s, init), ps[n], outs[n], CountedOver(s, init, counter), counter + ends);
    }
  }

  // ---------- conservation ----------

  /** Copies of a container held in the store: with consistent entries they can only be under its own key. */
  function HeldCopies(s: Store, c: Packet): nat { multiset(Entry(s, Key(c)))[c] }

  lemma EntryOrReleased(s: Store, p: Packet)
    ensures var fs := Entry(s, Key(p)) + [p];
      || (Entry(Next(s, p), Key(p)) == fs && ReleasedBy(s, p) == [])
      || (Entry(Next(s, p), Key(p)) == [] && ReleasedBy(s, p) == fs)
  {
    hide Key, Leaves;
  }

  lemma NextConserves(s: Store, p: Packet, c: Packet)
    requires Consistent(s)
    ensures HeldCopies(Next(s, p), c) + multiset(ReleasedBy(s, p))[c]
         == HeldCopies(s, c) + (if c == p then 1 else 0)
  {
    hide Key, Next, ReleasedBy, Entry, Consistent;
    if Key(c) == Key(p) {
      EntryOrReleased(s, p);
    } else {
      OtherKeysUntouched(s, p, Key(c));
      ReleasedHasKey(s, p);
    }
  }

  /** Every received fragment is held or was freed, each container once. */
  lemma {:induction false} RunConserves(s: Store, ps: seq<Packet>, c: Packet)
    requires Consistent(s) && forall p :: p in ps ==> IsFragment(p)
    ensures HeldCopies(After(s, ps), c) + multiset(ReleasedOver(s, ps))[c] == HeldCopies(s, c) + multiset(ps)[c]
  {
    if ps != [] {
      var init, p := ps[..|ps| - 1], ps[|ps| - 1];
      assert ps == init + [p];
      RunConserves(s, init, c);
      AfterIsConsistent(s, init);
      NextConserves(After(s, init), p, c);
    }
  }
}

/** The program's store: 32 maps, each guarded by its own lock, updated in place. A call holds the
    lock of its map from start to end, so every call is one step. */
module FragmentStores {
  import opened Bytes
  import opened Network
  import opened Sums
  import opened Reassembly
  import opened StoreRuns

  const NUMBER_OF_FRAGMENT_STORES := 32

  // ---------- the maps seen as one ----------

  /** The union of the maps. */
  function Merge(shards: seq<Store>): Store {
    if shards == [] then map[] else Merge(shards[..|shards| - 1]) + shards[|shards| - 1]
  }

  /** Every key lives in the map its residue selects. */
  predicate Sharded(shards: seq<Store>) {
    forall i, k :: 0 <= i < |shards| && k in shards[i] ==> k % NUMBER_OF_FRAGMENT_STORES == i
  }

  lemma {:induction false} MergeLookup(shards: seq<Store>, k: nat)
    requires Sharded(shards)
    ensures k in Merge(shards) <==>
      k % NUMBER_OF_FRAGMENT_STORES < |shards| && k in shards[k % NUMBER_OF_FRAGMENT_STORES]
    ensures k in Merge(shards) ==> Merge(shards)[k] == shards[k % NUMBER_OF_FRAGMENT_STORES][k]
  {
    if shards != [] {
      MergeLookup(shards[..|shards| - 1], k);
    }
  }

  lemma ShardLookup(shards: seq<Store>, k: nat)
    requires Sharded(shards) && |shards| == NUMBER_OF_FRAGMENT_STORES
    ensures k in Merge(shards) <==> k in shards[k % NUMBER_OF_FRAGMENT_STORES]
    ensures k in Merge(shards) ==> Merge(shards)[k] == shards[k % NUMBER_OF_FRAGMENT_STORES][k]
    ensures Entry(Merge(shards), k) == Entry(shards[k % NUMBER_OF_FRAGMENT_STORES], k)
  {
    MergeLookup(shards, k);
  }

  /** Replacing one key in its own map does the same to the union. */
  lemma ShardPut(shards: seq<Store>, k: nat, fs: seq<Packet>)
    requires Sharded(shards) && |shards| == NUMBER_OF_FRAGMENT_STORES
    ensures var n := k % NUMBER_OF_FRAGMENT_STORES; var after := shards[n := Put(shards[n], k, fs)];
      Sharded(after) && Merge(after) == Put(Merge(shards), k, fs)
  {
    hide Merge;
    var n := k % NUMBER_OF_FRAGMENT_STORES;
    var after := shards[n := Put(shards[n], k, fs)];
    forall j: nat
      ensures j in Merge(after) <==> j in Put(Merge(shards), k, fs)
      ensures j in Merge(after) ==> Merge(after)[j] == Put(Merge(shards), k, fs)[j]
    {
      ShardLookup(shards, j);
      ShardLookup(after, j);
    }
  }

  /** Removing one key from its own map does the same to the union. */
  lemma ShardDrop(shards: seq<Store>, k: nat)
    requires Sharded(shards) && |shards| == NUMBER_OF_FRAGMENT_STORES
    ensures var n := k % NUMBER_OF_FRAGMENT_STORES; var after := shards[n := Drop(shards[n], k)];
      Sharded(after) && Merge(after) == Drop(Merge(shards), k)
  {
    hide Merge;
    var n := k % NUMBER_OF_FRAGMENT_STORES;
    var after := shards[n := Drop(shards[n], k)];
    forall j: nat
      ensures j in Merge(after) <==> j in Drop(Merge(shards), k)
      ensures j in Merge(after) ==> Merge(after)[j] == Drop(Merge(shards), k)[j]
    {
      ShardLookup(shards, j);
      ShardLookup(after, j);
    }
  }

  function Size(s: Store): int { |s| }

  lemma MergeOneMore(shards: seq<Store>)
    requires shards != [] && Sharded(shards)
    ensures |Merge(shards)| == |Merge(shards[..|shards| - 1])| + |shards[|shards| - 1]|
  {
    var init, last := shards[..|shards| - 1], shards[|shards| - 1];
    forall k: nat | k in Merge(init) ensures k !in last {
      MergeLookup(init, k);
    }
    assert Merge(shards).Keys == Merge(init).Keys + last.Keys;
    assert |Merge(shards)| == |Merge(shards).Keys| && |Merge(init)| == |Merge(init).Keys| && |last| == |last.Keys|;
  }

  /** The sizes of the maps add up to the number of distinct keys. */
  lemma {:induction false} MergeSize(shards: seq<Store>)
    requires Sharded(shards)
    ensures |Merge(shards)| == Sum(shards, Size)
  {
    if shards != [] {
      MergeSize(shards[..|shards| - 1]);
      MergeOneMore(shards);
    }
  }

  // ---------- the class ----------

  class FragmentStore {
    var fragmentsById: array<Store>
    var numberOfFragmentsReceived: nat
    var numberOfReassembledFrames: nat
    var released: seq<Packet>  // containers whose memory has been freed, in order

    ghost predicate Valid()
      reads this, fragmentsById
    {
      && fragmentsById.Length == NUMBER_OF_FRAGMENT_STORES
      && numberOfFragmentsReceived < UINT && numberOfReassembledFrames < UINT
      && Sharded(fragmentsById[..])
      && Consistent(Contents())
    }

    ghost function Contents(): Store
      reads this, fragmentsById
    {
      Merge(fragmentsById[..])
    }

    constructor ()
      ensures Valid() && fresh(fragmentsById)
      ensures Contents() == map[] && released == []
      ensures numberOfFragmentsReceived == numberOfReassembledFrames == 0
    {
      fragmentsById := new Store[NUMBER_OF_FRAGMENT_STORES](_ => map[]);
      numberOfFragmentsReceived, numberOfReassembledFrames := 0, 0;
      released := [];
      new;
      assert Sharded(fragmentsById[..]);
      if k: nat :| k in Contents() {
        MergeLookup(fragmentsById[..], k);
      }
    }

    /** Takes ownership of the fragment; returns the reassembled frame or a null container. */
    method AddFragment(fragment: Packet) returns (out: Outcome)
      requires Valid() && IsFragment(fragment)
      modifies this, fragmentsById
      ensures Valid() && fragmentsById == old(fragmentsById)
      ensures Allowed(Entry(old(Contents()), Key(fragment)) + [fragment], out)
      ensures Contents() == Next(old(Contents()), fragment)
      ensures released == old(released) + ReleasedBy(old(Contents()), fragment)
      ensures numberOfFragmentsReceived == (old(numberOfFragmentsReceived) + 1) % UINT
      ensures numberOfReassembledFrames == Counted(old(Contents()), fragment, old(numberOfReassembledFrames))
    {
      hide Offset, PayloadLen, TotLen, Load16Be, Sum, Merge, LatestFinal, IsFragment, SrcIP, IpId,
        GenerateFragmentID, Consistent, Sharded, Assemble;
      ghost var before := Contents();
      NextIsConsistent(before, fragment);
      FinalsNeverExceedTwo(before, fragment);
      var fragID := GenerateFragmentID(SrcIP(fragment), IpId(fragment));
      var fragmentStoreNum := fragID % NUMBER_OF_FRAGMENT_STORES;
      numberOfFragmentsReceived := (numberOfFragmentsReceived + 1) % UINT;
      var fragmentsReceived := PushBack(fragmentStoreNum, fragID, fragment);
      assert Drop(Put(before, fragID, fragmentsReceived), fragID) == Drop(before, fragID);

      var sumOfIPPayloadBytes, lastFragmentCounter, lastFragment := Tally(fragmentsReceived);

      if lastFragmentCounter > 1 {
        CleanAll(fragmentStoreNum, fragID);
        return Purged;
      }
      if lastFragment.Some? {
        var expectedPayloadSum := (Offset(lastFragment.packet) + PayloadLen(lastFragment.packet)) % UINT;
        if expectedPayloadSum == sumOfIPPayloadBytes {
          numberOfReassembledFrames := (numberOfReassembledFrames + 1) % UINT;
          out := ReassembleFrame(fragmentsReceived);
          CleanAll(fragmentStoreNum, fragID);
          return;
        }
      }
      return Pending;
    }

    /** Appends the fragment to its list, creating the list if there is none. */
    method PushBack(fragmentStoreNum: nat, fragID: nat, fragment: Packet) returns (fragments: seq<Packet>)
      requires fragmentsById.Length == NUMBER_OF_FRAGMENT_STORES && Sharded(fragmentsById[..])
      requires fragmentStoreNum == fragID % NUMBER_OF_FRAGMENT_STORES
      modifies fragmentsById
      ensures fragments == Entry(old(Contents()), fragID) + [fragment]
      ensures Sharded(fragmentsById[..]) && Contents() == Put(old(Contents()), fragID, fragments)
    {
      ghost var before := fragmentsById[..];
      ShardLookup(before, fragID);
      fragments := Entry(fragmentsById[fragmentStoreNum], fragID) + [fragment];
      ShardPut(before, fragID, fragments);
      fragmentsById[fragmentStoreNum] := Put(fragmentsById[fragmentStoreNum], fragID, fragments);
      assert fragmentsById[..] == before[fragmentStoreNum := Put(before[fragmentStoreNum], fragID, fragments)];
    }

    /** Frees and forgets everything received under the key. */
    method CleanAll(fragmentStoreNum: nat, fragID: nat)
      requires fragmentsById.Length == NUMBER_OF_FRAGMENT_STORES && Sharded(fragmentsById[..])
      requires fragmentStoreNum == fragID % NUMBER_OF_FRAGMENT_STORES
      modifies this`released, fragmentsById
      ensures released == old(released) + Entry(old(Contents()), fragID)
      ensures Sharded(fragmentsById[..]) && Contents() == Drop(old(Contents()), fragID)
    {
      ghost var before := fragmentsById[..];
      ShardLookup(before, fragID);
      ShardDrop(before, fragID);
      var fragments := Entry(fragmentsById[fragmentStoreNum], fragID);
      var i := 0;
      while i < |fragments|
        invariant i <= |fragments| && released == old(released) + fragments[..i]
        invariant fragmentsById[..] == before
      {
        released := released + [fragments[i]];
        i := i + 1;
      }
      fragmentsById[fragmentStoreNum] := Drop(fragmentsById[fragmentStoreNum], fragID);
      assert fragmentsById[..] == before[fragmentStoreNum := Drop(before[fragmentStoreNum], fragID)];
    }

    /** The number of datagrams of which some but not all fragments have been received. */
    method GetNumberOfUnfinishedFrames() returns (sum: nat)
      requires Valid()
      ensures sum == |Contents()|
      ensures forall k :: k in Contents() ==> Incomplete(k, Contents()[k])
    {
      sum := 0;
      var i := 0;
      assert fragmentsById[..i] == [];
      while i < fragmentsById.Length
        invariant i <= fragmentsById.Length && sum == Sum(fragmentsById[..i], Size)
      {
        assert fragmentsById[..i + 1][..i] == fragmentsById[..i];
        sum := sum + |fragmentsById[i]|;
        i := i + 1;
      }
      assert fragmentsById[..i] == fragmentsById[..];
      MergeSize(fragmentsById[..]);
    }
  }

  datatype LastFragment = None | Some(packet: Packet)

  lemma EmptySums()
    ensures PayloadSum([]) == 0 && Finals([]) == 0
  {
  }

  lemma FinalsOfPrefix(fs: seq<Packet>, i: nat)
    requires i <= |fs|
    ensures Finals(fs[..i]) <= Finals(fs)
  {
    SumSplit(fs, i, FinalMark);
    FinalsNonNegative(fs[i..]);
  }

  /** One pass over the list: payload bytes in 32-bit arithmetic, final fragments in an 8-bit
      counter, and the last of them. */
  method Tally(fragments: seq<Packet>) returns (sum: nat, finals: nat, last: LastFragment)
    requires Finals(fragments) <= 2
    ensures sum == PayloadSum(fragments) % UINT && finals == Finals(fragments)
    ensures if finals == 0 then last == None else last == Some(LatestFinal(fragments))
  {
    hide Offset, TotLen, MoreFragments, PayloadLen, Sum;
    sum, finals, last := 0, 0, None;
    assert fragments[..0] == [];
    EmptySums();
    var i := 0;
    while i < |fragments|
      invariant i <= |fragments|
      invariant sum == PayloadSum(fragments[..i]) % UINT && finals == Finals(fragments[..i]) <= 2
      invariant if finals == 0 then last == None else last == Some(LatestFinal(fragments[..i]))
    {
      var f := fragments[i];
      FinalsOfPrefix(fragments, i + 1);
      SumTake(fragments, i, PayloadLen);
      SumTake(fragments, i, FinalMark);
      AddThenReduce(PayloadSum(fragments[..i]), PayloadLen(f));
      assert fragments[..i + 1][..i] == fragments[..i];
      sum := (sum + PayloadLen(f)) % UINT;
      if !MoreFragments(f) {
        last := Some(f);
        finals := (finals + 1) % 0x100;
      }
      i := i + 1;
    }
    assert fragments[..i] == fragments;
  }

  /** Sorts by offset: some sorted permutation, as the library sort is not stable. */
  method SortFragments(fragments: seq<Packet>) returns (s: seq<Packet>)
    ensures SortedPermutation(fragments, s) && |s| == |fragments|
  {
    s := [];
    var i := 0;
    while i < |fragments|
      invariant i <= |fragments| && s == InsertionSort(fragments[..i], ByOffset())
    {
      assert fragments[..i + 1][..i] == fragments[..i];
      s := Insert(s, fragments[i], ByOffset());
      i := i + 1;
    }
    assert fragments[..i] == fragments;
    SortedPermutationExists(fragments);
    assert |s| == |multiset(s)| && |fragments| == |multiset(fragments)|;
  }

  /** Sorts the fragments, allocates a buffer up to the end of the one with the highest offset and
      copies: the first container whole, of the others the IP payload. */
  method ReassembleFrame(received: seq<Packet>) returns (out: Outcome)
    requires |received| > 0
    ensures exists s :: SortedPermutation(received, s) && |s| > 0 && out == Assemble(s)
  {
    hide Offset, PayloadLen, TotLen, Payload, Sorted;
    var fragments := SortFragments(received);
    var lastFragment := fragments[|fragments| - 1];
    var totalBytes := ETHER_HEADER + Offset(lastFragment) + TotLen(lastFragment);
    var newFrameBuff := new byte[totalBytes];
    var currentOffset: nat := ETHER_HEADER + IP_HEADER;
    var i := 0;
    while i < |fragments|
      invariant i <= |fragments| && fresh(newFrameBuff) && newFrameBuff.Length == totalBytes
      invariant i == 0 ==> currentOffset == HEADERS
      invariant i > 0 ==> UDP_HDR <= currentOffset <= newFrameBuff.Length
      invariant i > 0 ==> Assemble(fragments) == AssembleRest(fragments, i, newFrameBuff[..currentOffset], totalBytes)
    {
      var fragment := fragments[i];
      if Offset(fragment) + ETHER_HEADER + IP_HEADER != currentOffset {
        return Rejected;
      }
      if i == 0 {
        if |fragment.bytes| > totalBytes { return OutOfBounds; }
        CopyInto(newFrameBuff, 0, fragment.bytes);
        assert newFrameBuff[..|fragment.bytes|] == fragment.bytes;
        currentOffset := |fragment.bytes|;
      } else {
        if !Readable(fragment) || currentOffset + PayloadLen(fragment) > totalBytes { return OutOfBounds; }
        ghost var written := newFrameBuff[..currentOffset];
        CopyInto(newFrameBuff, currentOffset, Payload(fragment));
        assert newFrameBuff[..currentOffset + PayloadLen(fragment)] == written + Payload(fragment);
        currentOffset := currentOffset + PayloadLen(fragment);
      }
      i := i + 1;
    }
    out := Frame(newFrameBuff[..currentOffset]);
  }
}
