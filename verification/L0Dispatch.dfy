/** What a received L0 MEP sets off: for the L0TP one first the invented MEPs, then its own fragments. */
module L0Dispatch {
  import opened InventedMeps
  import opened Network

  /** One `L1Builder::buildEvent` call. */
  datatype BuildCall = BuildCall(sourceID: nat, eventNumber: nat, burstID: nat)

  datatype Setup = Setup(
    l0tp: nat, l1: nat, l2: nat, nstd: nat,
    l1Active: bool, l2Active: bool, nstdActive: bool,
    l1DataSize: nat, l2DataSize: nat)

  predicate Distinct(setup: Setup) {
    && setup.l0tp != setup.l1 && setup.l0tp != setup.l2 && setup.l0tp != setup.nstd
    && setup.l1 != setup.l2 && setup.l1 != setup.nstd && setup.l2 != setup.nstd
  }

  /** The sizes stay in the range the builders compute in. */
  predicate Fits(m: Mep, dataSize: nat) {
    && dataSize + FRAGMENT_HEADER < 0x1_0000
    && Rung(MEP_HEADER, m.header.eventCount, dataSize + FRAGMENT_HEADER) + UDP_HDR < 0x8000_0000
  }

  predicate ActiveFit(setup: Setup, m: Mep) {
    && (setup.l1Active ==> Fits(m, setup.l1DataSize))
    && (setup.l2Active ==> Fits(m, setup.l2DataSize))
    && (setup.nstdActive ==> Fits(m, NSTD_DATA_SIZE))
  }

  /** Sources for which a MEP is invented, in the order of the code. */
  function InventedSources(setup: Setup): seq<nat> {
    If(setup.l1Active, setup.l1) + If(setup.l2Active, setup.l2) + If(setup.nstdActive, setup.nstd)
  }

  function If(active: bool, sourceID: nat): seq<nat> { if active then [sourceID] else [] }

  /** One call per event of the MEP. */
  function Calls(sourceID: nat, first: nat, n: nat, burstID: nat): seq<BuildCall> {
    if n == 0 then [] else Calls(sourceID, first, n - 1, burstID) + [BuildCall(sourceID, first + n - 1, burstID)]
  }

  function CallsOfAll(sources: seq<nat>, first: nat, n: nat, burstID: nat): seq<BuildCall> {
    if sources == [] then []
    else CallsOfAll(sources[..|sources| - 1], first, n, burstID) + Calls(sources[|sources| - 1], first, n, burstID)
  }

  /** The sources whose fragments are built, in order: the L0TP MEP's own come last. */
  function Sources(setup: Setup, m: Mep): seq<nat> {
    (if m.header.sourceID == setup.l0tp then InventedSources(setup) else []) + [m.header.sourceID]
  }

  /** The bytes counted for an invented MEP: block and room for the UDP header. */
  function InventedBytes(m: Mep, dataSize: nat): nat {
    Rung(MEP_HEADER, m.header.eventCount, dataSize + FRAGMENT_HEADER) + UDP_HDR
  }

  /** The bytes counted for source s when the MEP arrives in a container of the given length. */
  function BytesFor(setup: Setup, m: Mep, containerLength: nat, s: nat): nat {
    if s == m.header.sourceID then containerLength
    else if m.header.sourceID != setup.l0tp then 0
    else if s == setup.l1 && setup.l1Active then InventedBytes(m, setup.l1DataSize)
    else if s == setup.l2 && setup.l2Active then InventedBytes(m, setup.l2DataSize)
    else if s == setup.nstd && setup.nstdActive then InventedBytes(m, NSTD_DATA_SIZE)
    else 0
  }

  function Of(counters: map<nat, nat>, k: nat): nat { if k in counters then counters[k] else 0 }

  lemma NoCalls(first: nat, n: nat, burstID: nat)
    ensures CallsOfAll([], first, n, burstID) == []
  {
  }

  lemma MoreCalls(done: seq<nat>, s: nat, first: nat, n: nat, burstID: nat)
    ensures CallsOfAll(done + [s], first, n, burstID)
      == CallsOfAll(done, first, n, burstID) + Calls(s, first, n, burstID)
  {
    assert (done + [s])[..|done|] == done;
  }

  lemma {:induction false} CallsOfAllConcat(ss: seq<nat>, ts: seq<nat>, first: nat, n: nat, burstID: nat)
    ensures CallsOfAll(ss + ts, first, n, burstID)
      == CallsOfAll(ss, first, n, burstID) + CallsOfAll(ts, first, n, burstID)
    decreases |ts|
  {
    hide Calls;
    if ts == [] {
      assert ss + ts == ss;
    } else {
      assert (ss + ts)[..|ss + ts| - 1] == ss + ts[..|ts| - 1];
      CallsOfAllConcat(ss, ts[..|ts| - 1], first, n, burstID);
    }
  }

  class L0Dispatcher {
    const setup: Setup
    var mepsReceived: map<nat, nat>
    var bytesReceived: map<nat, nat>
    var calls: seq<BuildCall>

    constructor (setup: Setup)
      ensures this.setup == setup && calls == [] && mepsReceived == bytesReceived == map[]
    {
      this.setup := setup;
      mepsReceived, bytesReceived, calls := map[], map[], [];
    }

    method Count(sourceID: nat, bytes: nat)
      modifies this`mepsReceived, this`bytesReceived
      ensures mepsReceived == old(mepsReceived)[sourceID := Of(old(mepsReceived), sourceID) + 1]
      ensures bytesReceived == old(bytesReceived)[sourceID := Of(old(bytesReceived), sourceID) + bytes]
    {
      mepsReceived := mepsReceived[sourceID := Of(mepsReceived, sourceID) + 1];
      bytesReceived := bytesReceived[sourceID := Of(bytesReceived, sourceID) + bytes];
    }

    method BuildAll(m: Mep, burstID: nat)
      modifies this`calls
      ensures calls == old(calls) + Calls(m.header.sourceID, m.header.firstEventNum, m.header.eventCount, burstID)
    {
      var i := 0;
      while i != m.header.eventCount
        invariant 0 <= i <= m.header.eventCount
        invariant calls == old(calls) + Calls(m.header.sourceID, m.header.firstEventNum, i, burstID)
        decreases m.header.eventCount - i
      {
        calls := calls + [BuildCall(m.header.sourceID, m.header.firstEventNum + i, burstID)];
        i := i + 1;
      }
    }

    /** Invents the MEP of one source from the L0TP one and builds its fragments. */
    method InventAndBuild(m: Mep, sourceID: nat, dataSize: nat, wide: bool, burstID: nat) returns (invented: Mep)
      requires WellFormed(m) && Fits(m, dataSize)
      modifies this`mepsReceived, this`bytesReceived, this`calls
      ensures calls == old(calls) + Calls(sourceID, m.header.firstEventNum, m.header.eventCount, burstID)
      ensures mepsReceived == old(mepsReceived)[sourceID := Of(old(mepsReceived), sourceID) + 1]
      ensures bytesReceived ==
        old(bytesReceived)[sourceID := Of(old(bytesReceived), sourceID) + InventedBytes(m, dataSize)]
      ensures WellFormed(invented) && Invented(m, dataSize + FRAGMENT_HEADER, invented.data)
      ensures invented.header == InventedHeader(m, sourceID, |invented.data|)
    {
      hide Walk, FragmentAt, Patched, Rung;
      var header, buffer := Invent(m, sourceID, dataSize, wide);
      invented := Mep(header, buffer[UDP_HDR..]);
      InventedWalks(m, dataSize + FRAGMENT_HEADER, invented.data);
      Count(header.sourceID, buffer.Length);
      BuildAll(invented, burstID);
    }

    /** One of the three conditional blocks of the L0TP branch. */
    method InventIf(active: bool, m: Mep, sourceID: nat, dataSize: nat, wide: bool, burstID: nat)
      requires WellFormed(m) && (active ==> Fits(m, dataSize))
      modifies this`mepsReceived, this`bytesReceived, this`calls
      ensures calls == old(calls)
        + CallsOfAll(If(active, sourceID), m.header.firstEventNum, m.header.eventCount, burstID)
      ensures forall s :: Of(mepsReceived, s) == Of(old(mepsReceived), s) + (if s in If(active, sourceID) then 1 else 0)
      ensures forall s ::
        Of(bytesReceived, s) == Of(old(bytesReceived), s)
          + (if s in If(active, sourceID) then InventedBytes(m, dataSize) else 0)
    {
      hide Walk, FragmentAt, Rung, Calls, Invented, InventedBytes;
      NoCalls(m.header.firstEventNum, m.header.eventCount, burstID);
      if active {
        var _ := InventAndBuild(m, sourceID, dataSize, wide, burstID);
        MoreCalls([], sourceID, m.header.firstEventNum, m.header.eventCount, burstID);
        assert [] + [sourceID] == [sourceID];
      }
    }

    /** The L0TP branch: the invented MEPs of all active levels. */
    method InventAll(m: Mep, burstID: nat)
      requires WellFormed(m) && Distinct(setup) && m.header.sourceID == setup.l0tp
      requires ActiveFit(setup, m)
      modifies this`mepsReceived, this`bytesReceived, this`calls
      ensures calls == old(calls)
        + CallsOfAll(InventedSources(setup), m.header.firstEventNum, m.header.eventCount, burstID)
      ensures forall s ::
        Of(mepsReceived, s) == Of(old(mepsReceived), s) + (if s in InventedSources(setup) then 1 else 0)
      ensures forall s :: Of(bytesReceived, s) == Of(old(bytesReceived), s) + BytesFor(setup, m, 0, s)
    {
      hide Walk, Rung, Calls, CallsOfAll, WellFormed, Fits, Of, InventedBytes;
      ghost var first, n := m.header.firstEventNum, m.header.eventCount;
      ghost var a, b, c := If(setup.l1Active, setup.l1), If(setup.l2Active, setup.l2), If(setup.nstdActive, setup.nstd);
      CallsOfAllConcat(a, b, first, n, burstID);
      CallsOfAllConcat(a + b, c, first, n, burstID);
      InventIf(setup.l1Active, m, setup.l1, setup.l1DataSize, false, burstID);
      InventIf(setup.l2Active, m, setup.l2, setup.l2DataSize, true, burstID);
      InventIf(setup.nstdActive, m, setup.nstd, NSTD_DATA_SIZE, true, burstID);
    }

    /** The L0 branch of `processFrame`. */
    method Dispatch(m: Mep, containerLength: nat, burstID: nat)
      requires WellFormed(m) && Distinct(setup) && (m.header.sourceID == setup.l0tp ==> ActiveFit(setup, m))
      modifies this`mepsReceived, this`bytesReceived, this`calls
      ensures calls == old(calls) + CallsOfAll(Sources(setup, m), m.header.firstEventNum, m.header.eventCount, burstID)
      ensures forall s :: Of(mepsReceived, s) == Of(old(mepsReceived), s) + (if s in Sources(setup, m) then 1 else 0)
      ensures forall s :: Of(bytesReceived, s) == Of(old(bytesReceived), s) + BytesFor(setup, m, containerLength, s)
    {
      hide Walk, Rung, Calls, CallsOfAll, WellFormed, Fits, InventedBytes;
      ghost var first, n := m.header.firstEventNum, m.header.eventCount;
      ghost var invented := if m.header.sourceID == setup.l0tp then InventedSources(setup) else [];
      NoCalls(first, n, burstID);
      MoreCalls(invented, m.header.sourceID, first, n, burstID);
      Count(m.header.sourceID, containerLength);
      if m.header.sourceID == setup.l0tp {
        InventAll(m, burstID);
      }
      BuildAll(m, burstID);
    }
  }

  // ---------- the fan-out ----------

  lemma {:induction false} CallsOnce(s: nat, first: nat, n: nat, burstID: nat, c: BuildCall)
    ensures |Calls(s, first, n, burstID)| == n
    ensures multiset(Calls(s, first, n, burstID))[c] ==
      if c.sourceID == s && c.burstID == burstID && first <= c.eventNumber < first + n then 1 else 0
  {
    if n > 0 { CallsOnce(s, first, n - 1, burstID, c); }
  }

  lemma {:induction false} CallsOfAllOnce(sources: seq<nat>, first: nat, n: nat, burstID: nat, c: BuildCall)
    requires forall i, j :: 0 <= i < j < |sources| ==> sources[i] != sources[j]
    ensures multiset(CallsOfAll(sources, first, n, burstID))[c] ==
      if c.sourceID in sources && c.burstID == burstID && first <= c.eventNumber < first + n then 1 else 0
  {
    hide Calls;
    if sources != [] {
      var last := |sources| - 1;
      CallsOfAllOnce(sources[..last], first, n, burstID, c);
      CallsOnce(sources[last], first, n, burstID, c);
      assert c.sourceID in sources <==> c.sourceID in sources[..last] || c.sourceID == sources[last];
    }
  }

  /** What a call list ends with, and what stands before. */
  lemma OwnCallsLast(sources: seq<nat>, own: nat, first: nat, n: nat, burstID: nat)
    requires own !in sources && forall i, j :: 0 <= i < j < |sources| ==> sources[i] != sources[j]
    ensures var calls := CallsOfAll(sources + [own], first, n, burstID);
      && |calls| >= n && calls[|calls| - n..] == Calls(own, first, n, burstID)
      && forall i :: 0 <= i < |calls| - n ==> calls[i].sourceID != own
  {
    hide Calls, CallsOfAll;
    MoreCalls(sources, own, first, n, burstID);
    CallsOnce(own, first, n, burstID, BuildCall(own, first, burstID));
    var before := CallsOfAll(sources, first, n, burstID);
    forall i | 0 <= i < |before| ensures before[i].sourceID != own {
      CallsOfAllOnce(sources, first, n, burstID, before[i]);
      assert before[i] in multiset(before);
    }
  }

  lemma SourcesAreDistinct(setup: Setup, m: Mep)
    requires Distinct(setup)
    ensures var s := Sources(setup, m); forall i, j :: 0 <= i < j < |s| ==> s[i] != s[j]
  {
  }

  /** Each event number is built exactly once for every active invented source and once for the MEP's
      own, nothing else is built, and all invented fragments come before the MEP's own. */
  lemma FanOut(setup: Setup, m: Mep, burstID: nat, c: BuildCall)
    requires Distinct(setup)
    ensures var first, n := m.header.firstEventNum, m.header.eventCount;
      var calls := CallsOfAll(Sources(setup, m), first, n, burstID);
      && multiset(calls)[c] ==
           (if c.sourceID in Sources(setup, m) && c.burstID == burstID && first <= c.eventNumber < first + n
            then 1 else 0)
      && |calls| >= n && calls[|calls| - n..] == Calls(m.header.sourceID, first, n, burstID)
      && forall i :: 0 <= i < |calls| - n ==> calls[i].sourceID != m.header.sourceID
  {
    hide Calls, CallsOfAll;
    SourcesAreDistinct(setup, m);
    CallsOfAllOnce(Sources(setup, m), m.header.firstEventNum, m.header.eventCount, burstID, c);
    OwnCallsLast(if m.header.sourceID == setup.l0tp then InventedSources(setup) else [], m.header.sourceID,
      m.header.firstEventNum, m.header.eventCount, burstID);
  }

  // ---------- order and amounts, in numbers ----------

  /** The order in which the code turns to the sources. */
  function Turn(setup: Setup, s: nat): nat {
    if s == setup.l1 then 1 else if s == setup.l2 then 2 else if s == setup.nstd then 3 else 4
  }

  /** A source takes part if its level is active and the MEP is the L0TP one, or if the MEP is its own; L1
      comes before L2, that before NSTD, and the L0TP fragments last. */
  lemma SourcesInOrder(setup: Setup, m: Mep)
    requires Distinct(setup)
    ensures forall s :: s in Sources(setup, m) <==>
      || s == m.header.sourceID
      || (m.header.sourceID == setup.l0tp && s == setup.l1 && setup.l1Active)
      || (m.header.sourceID == setup.l0tp && s == setup.l2 && setup.l2Active)
      || (m.header.sourceID == setup.l0tp && s == setup.nstd && setup.nstdActive)
    ensures var s := Sources(setup, m); forall i, j :: 0 <= i < j < |s| ==> Turn(setup, s[i]) < Turn(setup, s[j])
  {
  }

  lemma {:induction false} CallAt(s: nat, first: nat, n: nat, burstID: nat, i: nat)
    requires i < |Calls(s, first, n, burstID)|
    ensures i < n && Calls(s, first, n, burstID)[i] == BuildCall(s, first + i, burstID)
  {
    CallsOnce(s, first, n, burstID, BuildCall(s, first, burstID));
    if i < n - 1 { CallAt(s, first, n - 1, burstID, i); }
  }

  lemma {:induction false} CallHasSource(sources: seq<nat>, first: nat, n: nat, burstID: nat, i: nat) returns (a: nat)
    requires i < |CallsOfAll(sources, first, n, burstID)|
    ensures a < |sources| && CallsOfAll(sources, first, n, burstID)[i].sourceID == sources[a]
  {
    hide Calls;
    var k := |sources| - 1;
    var before := CallsOfAll(sources[..k], first, n, burstID);
    if i < |before| {
      a := CallHasSource(sources[..k], first, n, burstID, i);
    } else {
      a := k;
      CallAt(sources[k], first, n, burstID, i - |before|);
    }
  }

  /** Where a call stands: its source's place and its event's place. */
  lemma {:induction false} CallsFollowSources(sources: seq<nat>, first: nat, n: nat, burstID: nat, i: nat, j: nat)
    requires i < j < |CallsOfAll(sources, first, n, burstID)|
    ensures var calls := CallsOfAll(sources, first, n, burstID);
      exists a, b :: 0 <= a <= b < |sources| && calls[i].sourceID == sources[a] && calls[j].sourceID == sources[b]
        && (a == b ==> calls[i].eventNumber < calls[j].eventNumber)
  {
    hide Calls;
    var k := |sources| - 1;
    var before, last := CallsOfAll(sources[..k], first, n, burstID), Calls(sources[k], first, n, burstID);
    if j < |before| {
      CallsFollowSources(sources[..k], first, n, burstID, i, j);
    } else {
      CallAt(sources[k], first, n, burstID, j - |before|);
      if i < |before| {
        var a := CallHasSource(sources[..k], first, n, burstID, i);
        assert sources[..k][a] == sources[a];
      } else {
        CallAt(sources[k], first, n, burstID, i - |before|);
      }
    }
  }

  /** The bytes counted, in numbers: a block header of 8 bytes, 8 bytes and the data for each event, and 42
      bytes of room for the network headers; an NSTD fragment has 12 bytes in all. */
  lemma BytesInNumbers(setup: Setup, m: Mep, containerLength: nat)
    requires Distinct(setup)
    ensures BytesFor(setup, m, containerLength, m.header.sourceID) == containerLength
    ensures m.header.sourceID == setup.l0tp ==>
      var n := m.header.eventCount;
      && BytesFor(setup, m, containerLength, setup.l1) == (if setup.l1Active then n * (setup.l1DataSize + 8) + 50 else 0)
      && BytesFor(setup, m, containerLength, setup.l2) == (if setup.l2Active then n * (setup.l2DataSize + 8) + 50 else 0)
      && BytesFor(setup, m, containerLength, setup.nstd) == (if setup.nstdActive then n * 12 + 50 else 0)
    ensures forall s :: s !in Sources(setup, m) ==> BytesFor(setup, m, containerLength, s) == 0
  {
    var n := m.header.eventCount;
    RungIs(MEP_HEADER, n, setup.l1DataSize + 8);
    RungIs(MEP_HEADER, n, setup.l2DataSize + 8);
    RungIs(MEP_HEADER, n, 12);
  }
}
