/** The end-of-burst sweep: a parallel loop over the indices of the pool. */
module EndOfBurstSweep {
  import opened Sums
  import opened Events
  import opened Lifecycle

  // ---------- what a sweep does, whatever the order ----------

  /** No index twice, every index in the pool and touched. */
  predicate Visits(f: Farm, order: seq<nat>) {
    && (forall i, j :: 0 <= i < j < |order| ==> order[i] != order[j])
    && (forall i :: 0 <= i < |order| ==> order[i] <= f.largestTouched && order[i] < |f.slots|)
  }

  lemma SweepStores(cfg: Config, n: nat, s: Slot, x: Record)
    ensures var e := SweepEffect(cfg, n, s);
      && e.requests == 0
      && multiset(e.stored)[x] == (if x in e.stored then 1 else 0) && (x in e.stored ==> x.number == n)
      && (x in e.stored <==> s.unfinished && cfg.isLast(DataOf(n, s)) && x == DataOf(n, s))
  {
  }

  lemma {:induction false} SweptSlot(cfg: Config, f: Farm, order: seq<nat>, n: nat)
    requires PoolOk(cfg, f) && Visits(f, order) && n < |f.slots|
    ensures Sweep(cfg, f, order).slots[n] == if n in order then FREE else f.slots[n]
    ensures Sweep(cfg, f, order).l1Requests == f.l1Requests
  {
    hide SweepEffect, SlotOk, StageOf, Play, History;
    if order != [] {
      var init, k := order[..|order| - 1], order[|order| - 1];
      SweptSlot(cfg, f, init, n);
      SweepKeepsPool(cfg, f, init);
      var g := Sweep(cfg, f, init);
      SweepConforms(cfg, k, g.slots[k]);
      SweepStores(cfg, k, g.slots[k], DataOf(k, FREE));
      assert n in order <==> n in init || n == k;
    }
  }

  lemma {:induction false} SweptHistory(cfg: Config, f: Farm, order: seq<nat>, n: nat)
    requires PoolOk(cfg, f) && Visits(f, order) && n < |f.slots|
    ensures History(Sweep(cfg, f, order).log, n)
      == History(f.log, n) + if n in order then SweepEffect(cfg, n, f.slots[n]).actions else []
  {
    hide SweepEffect, SlotOk, StageOf, Play, History, PoolOk;
    if order == [] {
      assert History(f.log, n) + [] == History(f.log, n);
    } else {
      var init, k := order[..|order| - 1], order[|order| - 1];
      SweptHistory(cfg, f, init, n);
      SweptSlot(cfg, f, init, k);
      var g := Sweep(cfg, f, init);
      var e := SweepEffect(cfg, k, g.slots[k]);
      ApplyExtendsHistory(cfg, g, k, e, n);
      assert n in order <==> n in init || n == k;
      assert History(g.log, n) + [] == History(g.log, n);
      assert (History(f.log, n) + []) + e.actions == History(f.log, n) + e.actions;
    }
  }

  /** Storage receives exactly the unfinished last events among the visited ones, each once. */
  lemma {:induction false} SweptStorage(cfg: Config, f: Farm, order: seq<nat>, x: Record)
    requires PoolOk(cfg, f) && Visits(f, order)
    ensures multiset(Sweep(cfg, f, order).storage)[x] == multiset(f.storage)[x]
      + if x.number in order && x in SweepEffect(cfg, x.number, f.slots[x.number]).stored then 1 else 0
  {
    hide SweepEffect, SlotOk, StageOf, Play, History, PoolOk;
    if order != [] {
      var init, k := order[..|order| - 1], order[|order| - 1];
      SweptStorage(cfg, f, init, x);
      SweptSlot(cfg, f, init, k);
      var g := Sweep(cfg, f, init);
      SweepStores(cfg, k, g.slots[k], x);
      assert x.number in order <==> x.number in init || x.number == k;
    }
  }

  lemma SweepResult(cfg: Config, f: Farm, order: seq<nat>, n: nat, x: Record)
    requires PoolOk(cfg, f) && Visits(f, order) && n < |f.slots|
    ensures var r := Sweep(cfg, f, order);
      && r.slots[n] == (if n in order then FREE else f.slots[n]) && r.l1Requests == f.l1Requests
      && History(r.log, n) == History(f.log, n) + (if n in order then SweepEffect(cfg, n, f.slots[n]).actions else [])
      && multiset(r.storage)[x] == multiset(f.storage)[x]
           + (if x.number in order && x in SweepEffect(cfg, x.number, f.slots[x.number]).stored then 1 else 0)
  {
    hide SweepEffect, SlotOk, StageOf, Play, History, PoolOk, Sweep;
    SweptSlot(cfg, f, order, n);
    SweptHistory(cfg, f, order, n);
    SweptStorage(cfg, f, order, x);
  }

  lemma SameVisits(f: Farm, order: seq<nat>, other: seq<nat>, n: nat)
    requires VisitsAll(f, order) && VisitsAll(f, other)
    ensures n in order <==> n in other
    ensures n in order <==> n <= f.largestTouched && n < |f.slots|
  {
  }

  /** Any two orders in which the indices are visited, and so any split of the range over threads and
      any interleaving of them, leave the same pool, the same events in storage and the same history
      of every slot. */
  lemma OrderIsIrrelevant(cfg: Config, f: Farm, order: seq<nat>, other: seq<nat>)
    requires PoolOk(cfg, f) && |f.slots| > 0 && VisitsAll(f, order) && VisitsAll(f, other)
    ensures var r, q := Sweep(cfg, f, order), Sweep(cfg, f, other);
      && r.slots == q.slots && multiset(r.storage) == multiset(q.storage) && r.l1Requests == q.l1Requests
      && forall n :: 0 <= n < |f.slots| ==> History(r.log, n) == History(q.log, n)
  {
    hide SweepEffect, History, SlotOk, StageOf, Play, Sweep, PoolOk;
    var r, q := Sweep(cfg, f, order), Sweep(cfg, f, other);
    forall n | 0 <= n < |f.slots|
      ensures r.slots[n] == q.slots[n] && History(r.log, n) == History(q.log, n)
    {
      SweepResult(cfg, f, order, n, DataOf(n, FREE));
      SweepResult(cfg, f, other, n, DataOf(n, FREE));
      SameVisits(f, order, other, n);
    }
    forall x: Record
      ensures multiset(r.storage)[x] == multiset(q.storage)[x] && r.l1Requests == q.l1Requests
    {
      SweepResult(cfg, f, order, 0, x);
      SweepResult(cfg, f, other, 0, x);
      SameVisits(f, order, other, x.number);
    }
    assert multiset(r.storage)[DataOf(0, FREE)] == multiset(q.storage)[DataOf(0, FREE)];
    assert r.slots == q.slots;
  }

  /** After the sweep the whole pool is free: nothing unfinished hides beyond the largest touched index. */
  lemma NothingRemains(cfg: Config, f: Farm, order: seq<nat>, nextBurst: nat)
    requires Inv(cfg, f) && Enabled(f, EndOfBurst(order, nextBurst))
    ensures forall n :: 0 <= n < cfg.poolSize ==> After(cfg, f, EndOfBurst(order, nextBurst)).slots[n] == FREE
  {
    hide SweepEffect, History, StageOf, Play, Sweep, QueueOk;
    forall n | 0 <= n < cfg.poolSize ensures Sweep(cfg, f, order).slots[n] == FREE {
      SweepResult(cfg, f, order, n, Record(0, 0, {}, {}));
      SameVisits(f, order, order, n);
    }
  }

  /** An unfinished last event of the burst is sent to storage once, before its slot is freed; no other
      event is sent by the sweep. */
  lemma LastEventIsStored(cfg: Config, f: Farm, order: seq<nat>, n: nat)
    requires Inv(cfg, f) && VisitsAll(f, order) && n < |f.slots| && f.slots[n].unfinished
    ensures var r := DataOf(n, f.slots[n]); var freed := FreeSwept(r, r.l0 == cfg.l0Sources);
      History(Sweep(cfg, f, order).log, n)
        == History(f.log, n) + if cfg.isLast(r) then [Store(r), freed] else [freed]
    ensures multiset(Sweep(cfg, f, order).storage)[DataOf(n, f.slots[n])]
         == multiset(f.storage)[DataOf(n, f.slots[n])] + if cfg.isLast(DataOf(n, f.slots[n])) then 1 else 0
  {
    hide History, SlotOk, StageOf, Play, Sweep, QueueOk;
    SweepResult(cfg, f, order, n, DataOf(n, f.slots[n]));
    SameVisits(f, order, order, n);
    SweepStores(cfg, n, f.slots[n], DataOf(n, f.slots[n]));
    var r := DataOf(n, f.slots[n]);
    assert [] + [FreeSwept(r, r.l0 == cfg.l0Sources)] == [FreeSwept(r, r.l0 == cfg.l0Sources)];
    assert [Store(r)] + [FreeSwept(r, r.l0 == cfg.l0Sources)] == [Store(r), FreeSwept(r, r.l0 == cfg.l0Sources)];
  }

  // ---------- the counters ----------

  function Unfinished(f: Farm): set<nat> {
    set n | 0 <= n < |f.slots| && f.slots[n].unfinished
  }

  function UnfinishedRequested(f: Farm): set<nat> {
    set n | 0 <= n < |f.slots| && f.slots[n].unfinished && f.slots[n].l1Requested
  }

  lemma SubsetIsSmaller<T>(a: set<T>, b: set<T>)
    requires a <= b
    ensures |a| <= |b|
  {
    assert b == a + (b - a);
  }

  /** The two counters as the loop raises them: each index looks at its slot when it is visited. */
  function CountIncomplete(cfg: Config, f: Farm, order: seq<nat>): nat
    requires forall i :: 0 <= i < |order| ==> order[i] < |f.slots|
  {
    if order == [] then 0
    else
      var init, n := order[..|order| - 1], order[|order| - 1];
      CountIncomplete(cfg, f, init) + if Sweep(cfg, f, init).slots[n].unfinished then 1 else 0
  }

  function CountRequested(cfg: Config, f: Farm, order: seq<nat>): nat
    requires forall i :: 0 <= i < |order| ==> order[i] < |f.slots|
  {
    if order == [] then 0
    else
      var init, n := order[..|order| - 1], order[|order| - 1];
      var s := Sweep(cfg, f, init).slots[n];
      CountRequested(cfg, f, init) + if s.unfinished && s.l1Requested then 1 else 0
  }

  function Among(f: Farm, order: seq<nat>): set<nat> {
    set n | n in order && n < |f.slots| && f.slots[n].unfinished
  }

  function AmongRequested(f: Farm, order: seq<nat>): set<nat> {
    set n | n in order && n < |f.slots| && f.slots[n].unfinished && f.slots[n].l1Requested
  }

  lemma NoneAmong(f: Farm)
    ensures Among(f, []) == {} && AmongRequested(f, []) == {}
  {
  }

  lemma AmongOneMore(f: Farm, init: seq<nat>, n: nat)
    requires n < |f.slots| && n !in init
    ensures |Among(f, init + [n])| == |Among(f, init)| + if f.slots[n].unfinished then 1 else 0
    ensures |AmongRequested(f, init + [n])|
      == |AmongRequested(f, init)| + if f.slots[n].unfinished && f.slots[n].l1Requested then 1 else 0
  {
    var a, r := Among(f, init), AmongRequested(f, init);
    assert forall k :: k in init + [n] <==> k in init || k == n;
    assert Among(f, init + [n]) == if f.slots[n].unfinished then a + {n} else a;
    assert AmongRequested(f, init + [n]) == if f.slots[n].unfinished && f.slots[n].l1Requested then r + {n} else r;
  }

  lemma {:induction false} CountersOfVisits(cfg: Config, f: Farm, order: seq<nat>)
    requires PoolOk(cfg, f) && Visits(f, order)
    ensures CountIncomplete(cfg, f, order) == |Among(f, order)|
    ensures CountRequested(cfg, f, order) == |AmongRequested(f, order)|
  {
    hide PoolOk, Sweep, Among, AmongRequested;
    if order == [] {
      NoneAmong(f);
      assert Among(f, order) == {} && AmongRequested(f, order) == {};
    } else {
      var init, n := order[..|order| - 1], order[|order| - 1];
      CountersOfVisits(cfg, f, init);
      SweptSlot(cfg, f, init, n);
      assert n !in init;
      AmongOneMore(f, init, n);
      assert order == init + [n];
    }
  }

  /** Whatever the order, and so for every split of the loop and every interleaving of its parts, the
      two counters end at the numbers of unfinished events and of those marked as requested. */
  lemma CountersAreExact(cfg: Config, f: Farm, order: seq<nat>)
    requires PoolOk(cfg, f) && VisitsAll(f, order)
    ensures CountIncomplete(cfg, f, order) == |Unfinished(f)|
    ensures CountRequested(cfg, f, order) == |UnfinishedRequested(f)|
  {
    hide SlotOk, StageOf, History, Play;
    CountersOfVisits(cfg, f, order);
    assert Among(f, order) == Unfinished(f);
    assert AmongRequested(f, order) == UnfinishedRequested(f);
  }

  /** The unfinished events whose L0 data is not complete. */
  function IncompleteAtL0(cfg: Config, f: Farm): set<nat> {
    set n | 0 <= n < |f.slots| && f.slots[n].unfinished && f.slots[n].l0 != cfg.l0Sources
  }

  /** Every event that is complete at L0 carries the request mark. */
  predicate AllCompleteMarked(cfg: Config, f: Farm) {
    forall n :: 0 <= n < |f.slots| && f.slots[n].unfinished && f.slots[n].l0 == cfg.l0Sources ==> f.slots[n].l1Requested
  }

  /** The figure reported as incomplete at L0 is a difference of the two counters. It is never
      negative, and it is the number of events incomplete at L0 if and only if every unfinished event
      that is complete at L0 carries the request mark. */
  lemma DifferenceOfCounters(cfg: Config, f: Farm)
    requires Inv(cfg, f)
    ensures |UnfinishedRequested(f)| <= |Unfinished(f)|
    ensures |Unfinished(f)| - |UnfinishedRequested(f)| == |IncompleteAtL0(cfg, f)| <==> AllCompleteMarked(cfg, f)
  {
    hide QueueOk, StageOf, History;
    var all, marked, early := Unfinished(f), UnfinishedRequested(f), IncompleteAtL0(cfg, f);
    var whole := set n | 0 <= n < |f.slots| && f.slots[n].unfinished && f.slots[n].l0 == cfg.l0Sources;
    assert forall n :: 0 <= n < |f.slots| ==> SlotOk(cfg, f.slots[n]);
    assert all == early + whole;
    assert marked <= whole;
    assert whole == marked + (whole - marked);
    forall n | n in whole ensures n in whole - marked <==> !f.slots[n].l1Requested {}
    assert whole - marked == {} <==> forall n :: n in whole ==> f.slots[n].l1Requested;
    assert forall n :: 0 <= n < |f.slots| && f.slots[n].unfinished && f.slots[n].l0 == cfg.l0Sources <==> n in whole;
  }

  /** In the local build, where nothing sets the mark, the figure is right if and only if no event in the
      pool is complete at L0, that is, none waits for its L1 data. */
  lemma DifferenceInLocalBuild(cfg: Config, f: Farm)
    requires Inv(cfg, f) && !cfg.sharedMemory
    ensures UnfinishedRequested(f) == {}
    ensures |Unfinished(f)| - |UnfinishedRequested(f)| == |IncompleteAtL0(cfg, f)|
      <==> forall n :: 0 <= n < |f.slots| ==> StageOf(cfg, f.slots[n]) == Empty || StageOf(cfg, f.slots[n]) == Building
  {
    hide QueueOk, History, Play;
    DifferenceOfCounters(cfg, f);
    assert forall n :: 0 <= n < |f.slots| ==> SlotOk(cfg, f.slots[n]);
  }

  /** With the shared memory it is right if and only if no event is on its way to or from the trigger. */
  lemma DifferenceWithSharedMemory(cfg: Config, f: Farm)
    requires Inv(cfg, f) && cfg.sharedMemory
    ensures |Unfinished(f)| - |UnfinishedRequested(f)| == |IncompleteAtL0(cfg, f)|
      <==> forall n :: 0 <= n < |f.slots| ==> StageOf(cfg, f.slots[n]) != Shipped
  {
    hide QueueOk, History, Play;
    DifferenceOfCounters(cfg, f);
    assert forall n :: 0 <= n < |f.slots| ==> SlotOk(cfg, f.slots[n]);
  }

  // ---------- the parallel loop ----------

  /** How the range is split: ranges of indices run in ascending order. */
  datatype Split = Leaf | Fork(mid: nat, left: Split, right: Split)

  predicate SplitsRange(t: Split, lo: nat, hi: nat) {
    match t
    case Leaf => lo <= hi
    case Fork(mid, left, right) => lo <= mid <= hi && SplitsRange(left, lo, mid) && SplitsRange(right, mid, hi)
  }

  datatype Range = Range(lo: nat, hi: nat)

  function Leaves(t: Split, lo: nat, hi: nat): seq<Range> {
    match t
    case Leaf => [Range(lo, hi)]
    case Fork(mid, left, right) => Leaves(left, lo, mid) + Leaves(right, mid, hi)
  }

  function Ascending(lo: nat, hi: nat): (r: seq<nat>)
    ensures forall i :: 0 <= i < |r| ==> lo <= r[i] < hi
  {
    if hi <= lo then [] else Ascending(lo, hi - 1) + [hi - 1]
  }

  /** The indices of the ranges, run one after the other. */
  function Visited(ranges: seq<Range>): seq<nat> {
    if ranges == [] then []
    else Visited(ranges[..|ranges| - 1]) + Ascending(ranges[|ranges| - 1].lo, ranges[|ranges| - 1].hi)
  }

  function InRange(i: nat): Range -> int { (r: Range) => if r.lo <= i < r.hi then 1 else 0 }

  lemma AppendCount(s: seq<nat>, x: nat, i: nat)
    ensures multiset(s + [x])[i] == multiset(s)[i] + if i == x then 1 else 0
  {
  }

  lemma AscendingStep(lo: nat, hi: nat)
    ensures Ascending(lo, hi) == if lo < hi then Ascending(lo, hi - 1) + [hi - 1] else []
  {
  }

  lemma {:induction false} AscendingOnce(lo: nat, hi: nat, i: nat)
    ensures multiset(Ascending(lo, hi))[i] == if lo <= i < hi then 1 else 0
    decreases hi
  {
    hide Ascending;
    AscendingStep(lo, hi);
    if lo < hi {
      AscendingOnce(lo, hi - 1, i);
      AppendCount(Ascending(lo, hi - 1), hi - 1, i);
    }
  }

  lemma {:induction false} VisitedCounts(ranges: seq<Range>, i: nat)
    ensures multiset(Visited(ranges))[i] == Sum(ranges, InRange(i))
  {
    if ranges != [] {
      var last := ranges[|ranges| - 1];
      VisitedCounts(ranges[..|ranges| - 1], i);
      AscendingOnce(last.lo, last.hi, i);
    }
  }

  lemma {:induction false} LeavesOnce(t: Split, lo: nat, hi: nat, i: nat)
    requires SplitsRange(t, lo, hi)
    ensures Sum(Leaves(t, lo, hi), InRange(i)) == if lo <= i < hi then 1 else 0
    decreases t
  {
    match t
    case Leaf => SumSingle(Range(lo, hi), InRange(i));
    case Fork(mid, left, right) =>
      LeavesOnce(left, lo, mid, i);
      LeavesOnce(right, mid, hi, i);
      SumConcat(Leaves(left, lo, mid), Leaves(right, mid, hi), InRange(i));
  }

  lemma NoneTwice(s: seq<nat>, i: nat, j: nat)
    requires i < j < |s| && s[i] == s[j]
    ensures multiset(s)[s[i]] >= 2
  {
    assert s == s[..i] + [s[i]] + s[i + 1..j] + [s[j]] + s[j + 1..];
  }

  /** However the range is split recursively, and however the threads that run the ranges interleave index
      by index, every index up to the largest touched is visited exactly once. */
  lemma ParallelLoopVisitsAll(cfg: Config, f: Farm, t: Split, order: seq<nat>)
    requires PoolOk(cfg, f) && cfg.poolSize > 0
    requires SplitsRange(t, 0, f.largestTouched + 1)
    requires multiset(order) == multiset(Visited(Leaves(t, 0, f.largestTouched + 1)))
    ensures VisitsAll(f, order)
  {
    hide History, StageOf, SlotOk, Play, Visited, Leaves, Sum;
    forall i: nat ensures multiset(order)[i] == if i <= f.largestTouched then 1 else 0 {
      VisitedCounts(Leaves(t, 0, f.largestTouched + 1), i);
      LeavesOnce(t, 0, f.largestTouched + 1, i);
    }
    forall i, j | 0 <= i < j < |order| ensures order[i] != order[j] {
      if order[i] == order[j] { NoneTwice(order, i, j); }
    }
    forall i | 0 <= i < |order| ensures order[i] <= f.largestTouched && order[i] < |f.slots| {
      assert order[i] in multiset(order);
    }
    forall n: nat | n <= f.largestTouched && n < |f.slots| ensures n in order {
      assert n in multiset(order);
    }
  }
}
