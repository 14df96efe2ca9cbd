/** What the automaton of the event lifecycle means for every run: how often things happen to an
    event, and where all completed events are. */
module LifecycleResults {
  import opened Sums
  import opened Events
  import opened Lifecycle

  // ---------- once per occupancy ----------

  predicate IsFree(a: Action) { a.FreeRejected? || a.FreeProcessed? || a.FreeSwept? }

  predicate FreeBetween(h: seq<Action>, i: nat, j: nat)
    requires j <= |h|
  {
    exists k :: i < k < j && IsFree(h[k])
  }

  /** The actions that may happen at most once while a slot is occupied. */
  predicate SameOnce(a: Action, b: Action) {
    || (a.Fill? && b.Fill?) || (a.Complete? && b.Complete?) || (a.Ship? && b.Ship?) || (a.RunL1? && b.RunL1?)
    || (a.Request? && b.Request?) || (a.RunL2? && b.RunL2?) || (a.Store? && b.Store?)
  }

  function Rank(s: Stage): nat {
    match s
    case Empty => 0 case Building => 1 case Whole => 2 case Shipped => 3 case Decided(_) => 4
    case Waiting => 5 case Done(_) => 6 case Sent(_) => 7 case Swept(_) => 8 case Wrong => 9
  }

  // One step of the automaton, by cases.

  lemma AdvanceRank(cfg: Config, s: Stage, a: Action)
    requires Advance(cfg, s, a) != Wrong && !IsFree(a)
    ensures Rank(s) <= Rank(Advance(cfg, s, a))
  {
  }

  lemma AdvanceOnce(cfg: Config, s: Stage, a: Action, t: Stage, b: Action)
    requires SameOnce(a, b) && Advance(cfg, s, a) != Wrong && Advance(cfg, t, b) != Wrong
    ensures Rank(t) < Rank(Advance(cfg, s, a))
  {
  }

  lemma AdvanceEmpty(cfg: Config, s: Stage, a: Action)
    requires Advance(cfg, s, a) != Wrong
    ensures Advance(cfg, s, a) == Empty <==> IsFree(a)
    ensures s == Empty <==> a == Fill
  {
  }

  predicate Late(s: Stage) { s == Whole || s == Shipped || s.Decided? || s == Waiting || s.Done? || s.Sent? }

  lemma AdvanceLate(cfg: Config, s: Stage, a: Action)
    requires Late(Advance(cfg, s, a)) && a != Complete
    ensures Late(s) && !IsFree(a)
  {
  }

  lemma AdvanceTrigger(cfg: Config, s: Stage, a: Action)
    requires Advance(cfg, s, a) != Wrong && (a.RunL1? || a.Request? || a.RunL2?)
    ensures Late(s)
  {
  }

  lemma PlayNext(cfg: Config, h: seq<Action>, i: nat)
    requires i < |h|
    ensures Play(cfg, Empty, h[..i + 1]) == Advance(cfg, Play(cfg, Empty, h[..i]), h[i])
  {
    assert h[..i + 1][..i] == h[..i];
  }

  lemma WrongStays(cfg: Config, s: Stage, a: Action)
    ensures s == Wrong ==> Advance(cfg, s, a) == Wrong
  {
  }

  lemma {:induction false} PrefixIsRight(cfg: Config, h: seq<Action>, i: nat)
    requires i <= |h| && Play(cfg, Empty, h) != Wrong
    ensures Play(cfg, Empty, h[..i]) != Wrong
    decreases |h| - i
  {
    hide Play;
    if i < |h| {
      PrefixIsRight(cfg, h, i + 1);
      PlayNext(cfg, h, i);
      WrongStays(cfg, Play(cfg, Empty, h[..i]), h[i]);
    } else {
      assert h[..i] == h;
    }
  }

  lemma {:induction false} RankGrows(cfg: Config, h: seq<Action>, i: nat, j: nat)
    requires i <= j <= |h| && Play(cfg, Empty, h) != Wrong
    requires forall k :: i <= k < j ==> !IsFree(h[k])
    ensures Rank(Play(cfg, Empty, h[..i])) <= Rank(Play(cfg, Empty, h[..j]))
    decreases j
  {
    hide Play, Advance;
    if i < j {
      RankGrows(cfg, h, i, j - 1);
      PlayNext(cfg, h, j - 1);
      PrefixIsRight(cfg, h, j);
      AdvanceRank(cfg, Play(cfg, Empty, h[..j - 1]), h[j - 1]);
    }
  }

  /** L0 completion, the L1 trigger, the L1 request, L2 processing and sending to storage each happen
      at most once between two frees of the slot. */
  lemma OncePerOccupancy(cfg: Config, h: seq<Action>, i: nat, j: nat)
    requires Play(cfg, Empty, h) != Wrong && i < j < |h| && SameOnce(h[i], h[j])
    ensures FreeBetween(h, i, j)
  {
    hide Play, Advance, Rank;
    if !FreeBetween(h, i, j) {
      PlayNext(cfg, h, i);
      PlayNext(cfg, h, j);
      PrefixIsRight(cfg, h, i + 1);
      PrefixIsRight(cfg, h, j + 1);
      RankGrows(cfg, h, i + 1, j);
      AdvanceOnce(cfg, Play(cfg, Empty, h[..i]), h[i], Play(cfg, Empty, h[..j]), h[j]);
    }
  }

  /** The slot is filled exactly at its first action and right after being freed. */
  predicate FilledWhenFree(h: seq<Action>, i: nat)
    requires i < |h|
  {
    (i == 0 || IsFree(h[i - 1])) <==> h[i] == Fill
  }

  /** After a slot was freed, the first thing done to it is to fill it again: it is freed once per
      filling, and no fragment, decision or store touches it in between. */
  lemma FreedThenFilled(cfg: Config, h: seq<Action>, i: nat)
    requires Play(cfg, Empty, h) != Wrong && i < |h|
    ensures FilledWhenFree(h, i)
  {
    hide Play, Advance;
    PlayNext(cfg, h, i);
    PrefixIsRight(cfg, h, i + 1);
    AdvanceEmpty(cfg, Play(cfg, Empty, h[..i]), h[i]);
    if i > 0 {
      PlayNext(cfg, h, i - 1);
      PrefixIsRight(cfg, h, i);
      AdvanceEmpty(cfg, Play(cfg, Empty, h[..i - 1]), h[i - 1]);
    } else {
      assert h[..0] == [];
      PlayNone(cfg, Empty);
    }
  }

  predicate CompletedBefore(h: seq<Action>, j: nat)
    requires j <= |h|
  {
    exists i :: 0 <= i < j && h[i] == Complete && !FreeBetween(h, i, j)
  }

  lemma {:induction false} LateStageIsComplete(cfg: Config, h: seq<Action>, j: nat)
    requires Play(cfg, Empty, h) != Wrong && j <= |h|
    requires Late(Play(cfg, Empty, h[..j]))
    ensures CompletedBefore(h, j)
    decreases j
  {
    hide Play, Advance;
    if j == 0 {
      assert h[..0] == [];
      PlayNone(cfg, Empty);
    } else {
      PlayNext(cfg, h, j - 1);
      if h[j - 1] == Complete {
        assert !FreeBetween(h, j - 1, j);
      } else {
        AdvanceLate(cfg, Play(cfg, Empty, h[..j - 1]), h[j - 1]);
        LateStageIsComplete(cfg, h, j - 1);
        var i :| 0 <= i < j - 1 && h[i] == Complete && !FreeBetween(h, i, j - 1);
        assert !FreeBetween(h, i, j);
      }
    }
  }

  /** The L1 trigger, the L1 request and L2 only ever run on an event whose L0 data is complete. */
  lemma TriggersNeedCompleteL0(cfg: Config, h: seq<Action>, j: nat)
    requires Play(cfg, Empty, h) != Wrong && j < |h| && (h[j].RunL1? || h[j].Request? || h[j].RunL2?)
    ensures CompletedBefore(h, j)
  {
    hide Play, Advance;
    PlayNext(cfg, h, j);
    PrefixIsRight(cfg, h, j + 1);
    AdvanceTrigger(cfg, Play(cfg, Empty, h[..j]), h[j]);
    LateStageIsComplete(cfg, h, j);
  }

  // The L1 decision, L2 and storage.

  /** A positive L1 trigger word was given to the event since its slot was last freed. */
  predicate PassedBefore(h: seq<Action>, j: nat)
    requires j <= |h|
  {
    exists i :: 0 <= i < j && h[i].RunL1? && h[i].word != 0 && !FreeBetween(h, i, j)
  }

  predicate Passed(s: Stage) { s == Decided(true) || s == Waiting || s.Done? || s.Sent? }

  lemma AdvancePassed(cfg: Config, s: Stage, a: Action)
    requires Passed(Advance(cfg, s, a))
    ensures !IsFree(a) && ((a.RunL1? && a.word != 0) || Passed(s))
  {
  }

  lemma {:induction false} PassedStageHasPassed(cfg: Config, h: seq<Action>, j: nat)
    requires Play(cfg, Empty, h) != Wrong && j <= |h| && Passed(Play(cfg, Empty, h[..j]))
    ensures PassedBefore(h, j)
    decreases j
  {
    hide Play, Advance;
    if j == 0 {
      assert h[..0] == [];
      PlayNone(cfg, Empty);
    } else {
      PlayNext(cfg, h, j - 1);
      AdvancePassed(cfg, Play(cfg, Empty, h[..j - 1]), h[j - 1]);
      if h[j - 1].RunL1? && h[j - 1].word != 0 {
        assert !FreeBetween(h, j - 1, j);
      } else {
        PassedStageHasPassed(cfg, h, j - 1);
        var i :| 0 <= i < j - 1 && h[i].RunL1? && h[i].word != 0 && !FreeBetween(h, i, j - 1);
        assert !FreeBetween(h, i, j);
      }
    }
  }

  /** The stages a slot can be in between two steps. */
  predicate Stable(s: Stage) { s == Empty || s == Building || s == Shipped || s == Waiting }

  lemma AdvanceL2(cfg: Config, s: Stage, a: Action)
    requires Advance(cfg, s, a) != Wrong
    ensures a.RunL2? ==> Passed(s) && FullRecord(cfg, a.event) && Advance(cfg, s, a) == Done(a.event)
    ensures a.Request? ==> Passed(s)
    ensures s.Done? ==> a == if Keeps(cfg, s.event) then Store(s.event) else FreeProcessed
  {
  }

  /** L2 runs on an event only with all its L0 and L1 data and after a positive L1 decision, and the
      next thing that happens to the event is to be stored if L2 keeps it, to be freed otherwise. */
  predicate L2Right(cfg: Config, h: seq<Action>, j: nat)
    requires j < |h|
  {
    h[j].RunL2? ==>
      && FullRecord(cfg, h[j].event) && PassedBefore(h, j) && j + 1 < |h|
      && h[j + 1] == if Keeps(cfg, h[j].event) then Store(h[j].event) else FreeProcessed
  }

  lemma L2RunsOnFullEvents(cfg: Config, h: seq<Action>, j: nat)
    requires Stable(Play(cfg, Empty, h)) && j < |h|
    ensures L2Right(cfg, h, j)
    ensures h[j].Request? ==> PassedBefore(h, j)
  {
    hide Play, Advance, PassedBefore, Keeps, FullRecord;
    assert j + 1 == |h| ==> h[..j + 1] == h;
    PlayNext(cfg, h, j);
    PrefixIsRight(cfg, h, j + 1);
    AdvanceL2(cfg, Play(cfg, Empty, h[..j]), h[j]);
    if h[j].RunL2? || h[j].Request? {
      PassedStageHasPassed(cfg, h, j);
    }
    if h[j].RunL2? && j + 1 < |h| {
      PlayNext(cfg, h, j + 1);
      PrefixIsRight(cfg, h, j + 2);
      AdvanceL2(cfg, Play(cfg, Empty, h[..j + 1]), h[j + 1]);
    }
  }

  lemma AdvanceStore(cfg: Config, s: Stage, a: Action)
    requires Advance(cfg, s, a) != Wrong
    ensures a.Store? ==>
      || (s == Done(a.event) && Keeps(cfg, a.event) && Advance(cfg, s, a).Sent?)
      || (cfg.isLast(a.event) && Advance(cfg, s, a) == Swept(a.event))
    ensures s.Swept? ==> a.FreeSwept? && a.event == s.event
    ensures Advance(cfg, s, a).Done? ==> a == RunL2(Advance(cfg, s, a).event)
  {
  }

  /** An event is sent to storage right after L2 has run on it and kept it, or by the sweep as the last
      event of its burst, right before being freed. */
  predicate StoreRight(cfg: Config, h: seq<Action>, j: nat)
    requires j < |h|
  {
    h[j].Store? ==>
      || (j > 0 && h[j - 1] == RunL2(h[j].event) && Keeps(cfg, h[j].event))
      || (cfg.isLast(h[j].event) && j + 1 < |h| && h[j + 1].FreeSwept? && h[j + 1].event == h[j].event)
  }

  lemma SomethingBefore(cfg: Config, h: seq<Action>, j: nat)
    requires j <= |h| && Play(cfg, Empty, h[..j]) != Empty
    ensures j > 0
  {
  }

  lemma StoresFollowL2OrSweep(cfg: Config, h: seq<Action>, j: nat)
    requires Stable(Play(cfg, Empty, h)) && j < |h|
    ensures StoreRight(cfg, h, j)
  {
    hide Play, Advance, Keeps;
    assert j + 1 == |h| ==> h[..j + 1] == h;
    PlayNext(cfg, h, j);
    PrefixIsRight(cfg, h, j + 1);
    AdvanceStore(cfg, Play(cfg, Empty, h[..j]), h[j]);
    if h[j].Store? {
      if Play(cfg, Empty, h[..j + 1]).Swept? {
        if j + 1 < |h| {
          PlayNext(cfg, h, j + 1);
          PrefixIsRight(cfg, h, j + 2);
          AdvanceStore(cfg, Play(cfg, Empty, h[..j + 1]), h[j + 1]);
        }
      } else {
        SomethingBefore(cfg, h, j);
        PlayNext(cfg, h, j - 1);
        PrefixIsRight(cfg, h, j);
        AdvanceStore(cfg, Play(cfg, Empty, h[..j - 1]), h[j - 1]);
      }
    }
  }

  lemma HistoryIsStable(cfg: Config, f: Farm, n: nat)
    requires Inv(cfg, f) && n < cfg.poolSize
    ensures Stable(Play(cfg, Empty, History(f.log, n)))
  {
    hide Play, History, QueueOk;
  }

  /** Over all runs of the farm, for every slot. */
  lemma LifeOfASlot(cfg: Config, steps: seq<Step>, states: seq<Farm>, t: nat, n: nat)
    requires Run(cfg, steps, states) && t <= |steps| && n < cfg.poolSize
    ensures var h := History(states[t].log, n);
      && (forall i, j :: 0 <= i < j < |h| && SameOnce(h[i], h[j]) ==> FreeBetween(h, i, j))
      && (forall i :: 0 <= i < |h| ==> FilledWhenFree(h, i))
      && (forall i :: 0 <= i < |h| && (h[i].RunL1? || h[i].Request? || h[i].RunL2?) ==> CompletedBefore(h, i))
      && (forall i :: 0 <= i < |h| && h[i].Request? ==> PassedBefore(h, i))
      && (forall i :: 0 <= i < |h| ==> L2Right(cfg, h, i))
      && (forall i :: 0 <= i < |h| ==> StoreRight(cfg, h, i))
  {
    hide After, Initial, Inv, History, Play, FreeBetween, CompletedBefore, SameOnce, FilledWhenFree, PassedBefore,
      L2Right, StoreRight;
    RunKeepsInv(cfg, steps, states, t);
    var h := History(states[t].log, n);
    assert Stable(Play(cfg, Empty, h)) by { HistoryIsStable(cfg, states[t], n); }
    forall i, j | 0 <= i < j < |h| && SameOnce(h[i], h[j]) ensures FreeBetween(h, i, j) {
      OncePerOccupancy(cfg, h, i, j);
    }
    forall i | 0 <= i < |h| ensures FilledWhenFree(h, i) {
      FreedThenFilled(cfg, h, i);
    }
    forall i | 0 <= i < |h| && (h[i].RunL1? || h[i].Request? || h[i].RunL2?) ensures CompletedBefore(h, i) {
      TriggersNeedCompleteL0(cfg, h, i);
    }
    forall i | 0 <= i < |h| ensures L2Right(cfg, h, i) && (h[i].Request? ==> PassedBefore(h, i)) {
      L2RunsOnFullEvents(cfg, h, i);
    }
    forall i | 0 <= i < |h| ensures StoreRight(cfg, h, i) {
      StoresFollowL2OrSweep(cfg, h, i);
    }
  }

  // ---------- conservation ----------

  datatype Kind = Completed | Rejected | Processed | SweptWhole | Requested | Stored | RanL2

  predicate OfKind(a: Action, k: Kind) {
    match k
    case Completed => a.Complete?
    case Rejected => a.FreeRejected?
    case Processed => a.FreeProcessed?
    case SweptWhole => a.FreeSwept? && a.complete
    case Requested => a.Request?
    case Stored => a.Store?
    case RanL2 => a.RunL2?
  }

  function Mark(k: Kind): Action -> int { a => if OfKind(a, k) then 1 else 0 }

  /** The weight of a log entry is that of its action. */
  function OnEntries(w: Action -> int): Entry -> int { (e: Entry) => w(e.action) }

  /** How often something of the kind was done, to any event. */
  function Count(log: seq<Entry>, k: Kind): int { Sum(log, OnEntries(Mark(k))) }

  function StoreOf(x: Record): Action -> int { (a: Action) => if a == Store(x) then 1 else 0 }

  /** The actions that send the record x to storage: an L2 run that keeps it, the sweep of a last event. */
  predicate Sends(cfg: Config, a: Action, x: Record) {
    (a == RunL2(x) && Keeps(cfg, x)) || (a.FreeSwept? && a.event == x && cfg.isLast(x))
  }

  function SendOf(cfg: Config, x: Record): Action -> int { (a: Action) => if Sends(cfg, a, x) then 1 else 0 }

  function Tally(actions: seq<Action>, k: Kind): int { Sum(actions, Mark(k)) }

  /** Events complete at L0 and still in their slots. */
  function InFlight(cfg: Config): Slot -> int {
    (s: Slot) => if s.unfinished && s.l0 == cfg.l0Sources then 1 else 0
  }

  lemma {:induction false} TaggedSum(n: nat, actions: seq<Action>, w: Action -> int)
    ensures Sum(Tagged(n, actions), OnEntries(w)) == Sum(actions, w)
    decreases |actions|
  {
    if actions != [] {
      var init := actions[..|actions| - 1];
      TaggedSum(n, init, w);
      assert Tagged(n, actions)[..|actions| - 1] == Tagged(n, init);
    }
  }

  lemma ApplySums(cfg: Config, f: Farm, n: nat, e: Effect, w: Action -> int)
    requires n < |f.slots|
    ensures Sum(Apply(cfg, f, n, e).log, OnEntries(w)) == Sum(f.log, OnEntries(w)) + Sum(e.actions, w)
  {
    SumConcat(f.log, Tagged(n, e.actions), OnEntries(w));
    TaggedSum(n, e.actions, w);
  }

  /** One for the stages of an event that is complete at L0. */
  function Whole1(cfg: Config, s: Stage): int {
    if Late(s) || (s.Swept? && s.event.l0 == cfg.l0Sources) then 1 else 0
  }

  function InL2(s: Stage): int { if s.Done? || s.Sent? then 1 else 0 }

  lemma AdvanceBalance(cfg: Config, s: Stage, a: Action)
    requires Advance(cfg, s, a) != Wrong
    ensures Mark(Completed)(a) - Mark(Rejected)(a) - Mark(Processed)(a) - Mark(SweptWhole)(a)
         == Whole1(cfg, Advance(cfg, s, a)) - Whole1(cfg, s)
    ensures Mark(RanL2)(a) - Mark(Processed)(a) == InL2(Advance(cfg, s, a)) - InL2(s)
  {
  }

  lemma {:induction false} PathBalance(cfg: Config, s: Stage, h: seq<Action>)
    requires Play(cfg, s, h) != Wrong
    ensures Tally(h, Completed) - Tally(h, Rejected) - Tally(h, Processed) - Tally(h, SweptWhole)
         == Whole1(cfg, Play(cfg, s, h)) - Whole1(cfg, s)
    ensures Tally(h, RanL2) - Tally(h, Processed) == InL2(Play(cfg, s, h)) - InL2(s)
    decreases |h|
  {
    hide Advance;
    if h != [] {
      var t, a := Play(cfg, s, h[..|h| - 1]), h[|h| - 1];
      WrongStays(cfg, t, a);
      PathBalance(cfg, s, h[..|h| - 1]);
      AdvanceBalance(cfg, t, a);
    }
  }

  /** Sent but not yet accounted for, or accounted for but not yet sent. */
  function Owed(cfg: Config, s: Stage, x: Record): int {
    if s == Swept(x) then 1 else if s == Done(x) && Keeps(cfg, x) then -1 else 0
  }

  lemma AdvanceOwed(cfg: Config, s: Stage, a: Action, x: Record)
    requires Advance(cfg, s, a) != Wrong
    ensures StoreOf(x)(a) - SendOf(cfg, x)(a) == Owed(cfg, Advance(cfg, s, a), x) - Owed(cfg, s, x)
  {
  }

  lemma {:induction false} PathOwed(cfg: Config, s: Stage, h: seq<Action>, x: Record)
    requires Play(cfg, s, h) != Wrong
    ensures Sum(h, StoreOf(x)) - Sum(h, SendOf(cfg, x)) == Owed(cfg, Play(cfg, s, h), x) - Owed(cfg, s, x)
    decreases |h|
  {
    hide Advance, Owed, Sends;
    if h != [] {
      var t, a := Play(cfg, s, h[..|h| - 1]), h[|h| - 1];
      WrongStays(cfg, t, a);
      PathOwed(cfg, s, h[..|h| - 1], x);
      AdvanceOwed(cfg, t, a, x);
    }
  }

  /** The counters and records an effect reports are those of the calls it makes. */
  ghost predicate Faithful(e: Effect) {
    && e.requests == Tally(e.actions, Requested) && |e.stored| == Tally(e.actions, Stored)
    && forall x :: multiset(e.stored)[x] == Sum(e.actions, StoreOf(x))
  }

  lemma ThenIsFaithful(actions: seq<Action>, e: Effect)
    requires Faithful(e) && forall a :: a in actions ==> !a.Request? && !a.Store?
    ensures Faithful(Then(actions, e))
  {
    SumConcat(actions, e.actions, Mark(Requested));
    SumConcat(actions, e.actions, Mark(Stored));
    SumZero(actions, Mark(Requested));
    SumZero(actions, Mark(Stored));
    forall x ensures Sum(actions + e.actions, StoreOf(x)) == Sum(e.actions, StoreOf(x)) {
      SumConcat(actions, e.actions, StoreOf(x));
      SumZero(actions, StoreOf(x));
    }
  }

  lemma SumOfOne(before: seq<Action>, a: Action, after: seq<Action>, w: Action -> int)
    requires forall b :: b in before + after ==> w(b) == 0
    ensures Sum(before + [a] + after, w) == w(a)
  {
    var all := before + [a] + after;
    assert all[..|before|] == before && all[|before| + 1..] == after && all[|before|] == a;
    SumPick(all, |before|, w);
    SumZero(before, w);
    SumZero(after, w);
  }

  lemma FewIsFaithful(before: seq<Action>, a: Action, after: seq<Action>, e: Effect)
    requires e.actions == before + [a] + after
    requires forall b :: b in before + after ==> !b.Request? && !b.Store?
    requires e.requests == (if a.Request? then 1 else 0) && e.stored == (if a.Store? then [a.event] else [])
    ensures Faithful(e)
  {
    SumOfOne(before, a, after, Mark(Requested));
    SumOfOne(before, a, after, Mark(Stored));
    forall x ensures multiset(e.stored)[x] == Sum(e.actions, StoreOf(x)) {
      SumOfOne(before, a, after, StoreOf(x));
    }
  }

  lemma L2IsFaithful(cfg: Config, n: nat, s: Slot)
    ensures Faithful(L2Effect(cfg, n, s))
  {
    hide Faithful;
    var e, r := L2Effect(cfg, n, s), DataOf(n, s);
    if |e.actions| == 3 {
      FewIsFaithful([RunL2(r)], Store(r), [FreeProcessed], e);
    } else {
      FewIsFaithful([RunL2(r)], FreeProcessed, [], e);
    }
  }

  lemma DisposeIsFaithful(cfg: Config, n: nat, s: Slot, word: nat)
    ensures Faithful(DisposeEffect(cfg, n, s, word))
  {
    hide Faithful, L2Effect;
    var e := DisposeEffect(cfg, n, s, word);
    var t := s.(l1Processed := true);
    L2IsFaithful(cfg, n, t);
    ThenIsFaithful([RunL1(word)], L2Effect(cfg, n, t));
    if word == 0 {
      FewIsFaithful([RunL1(word)], FreeRejected, [], e);
    } else if |cfg.l1Sources| != 0 {
      FewIsFaithful([RunL1(word)], Request, [], e);
    }
  }

  lemma NothingIsFaithful(s: Slot)
    ensures Faithful(Nothing(s))
  {
  }

  lemma AddL0IsFaithful(cfg: Config, n: nat, s: Slot, source: nat, burst: nat, storeOk: bool)
    ensures Faithful(AddL0Effect(cfg, n, s, source, burst, storeOk))
  {
    hide DisposeEffect, Faithful;
    NothingIsFaithful(s);
    if source in cfg.l0Sources && !(s.unfinished && source in s.l0) {
      var u := WithL0(s, source, burst);
      DisposeIsFaithful(cfg, n, u, L1_BYPASS_WORD);
      DisposeIsFaithful(cfg, n, u, cfg.l1Decide(DataOf(n, u)));
      FewIsFaithful([], Ship, [], Effect(u, [Ship], [], 0, true));
      ThenIsFaithful(AddingL0(s) + [Complete], L1Effect(cfg, n, u, storeOk));
      FewIsFaithful([], AddingL0(s)[0], AddingL0(s)[1..], Effect(u, AddingL0(s), [], 0, false));
    }
  }

  lemma AddL1IsFaithful(cfg: Config, n: nat, s: Slot, source: nat)
    ensures Faithful(AddL1Effect(cfg, n, s, source))
  {
    hide L2Effect;
    var t := s.(l1 := s.l1 + {source});
    L2IsFaithful(cfg, n, t);
    ThenIsFaithful([AddL1], L2Effect(cfg, n, t));
    FewIsFaithful([], AddL1, [], Effect(t, [AddL1], [], 0, false));
  }

  lemma SweepIsFaithful(cfg: Config, n: nat, s: Slot)
    ensures Faithful(SweepEffect(cfg, n, s))
  {
    hide Faithful;
    NothingIsFaithful(s);
    var e, r := SweepEffect(cfg, n, s), DataOf(n, s);
    if s.unfinished {
      if cfg.isLast(r) {
        FewIsFaithful([], Store(r), [FreeSwept(r, s.l0 == cfg.l0Sources)], e);
      } else {
        FewIsFaithful([], FreeSwept(r, s.l0 == cfg.l0Sources), [], e);
      }
    }
  }

  /** Where the completed events are, and what the counters and the storage hold. */
  ghost predicate Balanced(cfg: Config, f: Farm) {
    && Count(f.log, Completed)
         == Count(f.log, Rejected) + Count(f.log, Processed) + Count(f.log, SweptWhole) + Sum(f.slots, InFlight(cfg))
    && Count(f.log, RanL2) == Count(f.log, Processed)
    && f.l1Requests == Count(f.log, Requested)
    && |f.storage| == Count(f.log, Stored)
    && forall x :: multiset(f.storage)[x] == Sum(f.log, OnEntries(SendOf(cfg, x)))
  }

  lemma ApplyKeepsBalance(cfg: Config, f: Farm, n: nat, e: Effect)
    requires n < |f.slots| && Balanced(cfg, f) && Faithful(e)
    requires Conforms(cfg, f.slots[n], e)
    ensures Balanced(cfg, Apply(cfg, f, n, e))
  {
    hide Sum, SlotOk, Play, Sends;
    ApplySums(cfg, f, n, e, Mark(Completed));
    ApplySums(cfg, f, n, e, Mark(Rejected));
    ApplySums(cfg, f, n, e, Mark(Processed));
    ApplySums(cfg, f, n, e, Mark(SweptWhole));
    ApplySums(cfg, f, n, e, Mark(RanL2));
    ApplySums(cfg, f, n, e, Mark(Requested));
    ApplySums(cfg, f, n, e, Mark(Stored));
    PathBalance(cfg, StageOf(cfg, f.slots[n]), e.actions);
    SumUpdate(f.slots, n, e.slot, InFlight(cfg));
    var r := Apply(cfg, f, n, e);
    forall x ensures multiset(r.storage)[x] == Sum(r.log, OnEntries(SendOf(cfg, x))) {
      ApplySums(cfg, f, n, e, SendOf(cfg, x));
      PathOwed(cfg, StageOf(cfg, f.slots[n]), e.actions, x);
      assert multiset(f.storage + e.stored)[x] == multiset(f.storage)[x] + multiset(e.stored)[x];
    }
  }

  lemma {:induction false} SweepKeepsBalance(cfg: Config, f: Farm, order: seq<nat>)
    requires PoolOk(cfg, f) && Balanced(cfg, f)
    requires forall i :: 0 <= i < |order| ==> order[i] < |f.slots| && order[i] <= f.largestTouched
    ensures Balanced(cfg, Sweep(cfg, f, order))
  {
    hide Balanced, Conforms, SweepEffect, Faithful, Play, History, StageOf, SlotOk;
    if order != [] {
      var init, n := order[..|order| - 1], order[|order| - 1];
      SweepKeepsBalance(cfg, f, init);
      SweepKeepsPool(cfg, f, init);
      var g := Sweep(cfg, f, init);
      SweepConforms(cfg, n, g.slots[n]);
      SweepIsFaithful(cfg, n, g.slots[n]);
      ApplyKeepsBalance(cfg, g, n, SweepEffect(cfg, n, g.slots[n]));
    }
  }

  lemma SameBooksSameBalance(cfg: Config, f: Farm, g: Farm)
    requires Balanced(cfg, f) && g.slots == f.slots && g.log == f.log
    requires g.l1Requests == f.l1Requests && g.storage == f.storage
    ensures Balanced(cfg, g)
  {
  }

  lemma StepKeepsBalance(cfg: Config, f: Farm, step: Step)
    requires Inv(cfg, f) && Enabled(f, step) && Balanced(cfg, f)
    ensures Balanced(cfg, After(cfg, f, step))
  {
    hide Balanced, Conforms, Faithful, Play, History, StageOf, SlotOk, AddL0Effect, AddL1Effect, DisposeEffect;
    match step
    case L0Fragment(n, source, burst, storeOk) =>
      if n < |f.slots| {
        AddL0Conforms(cfg, n, f.slots[n], source, burst, storeOk);
        AddL0IsFaithful(cfg, n, f.slots[n], source, burst, storeOk);
        SameBooksSameBalance(cfg, f, Touch(f, n));
        ApplyKeepsBalance(cfg, Touch(f, n), n, AddL0Effect(cfg, n, f.slots[n], source, burst, storeOk));
      }
    case L1Fragment(n, source) =>
      if n < |f.slots| {
        AddL1Conforms(cfg, n, f.slots[n], source);
        AddL1IsFaithful(cfg, n, f.slots[n], source);
        SameBooksSameBalance(cfg, f, Touch(f, n));
        ApplyKeepsBalance(cfg, Touch(f, n), n, AddL1Effect(cfg, n, f.slots[n], source));
      }
    case Response(pos) =>
      var m := f.queue[pos];
      var g := f.(queue := f.queue[..pos] + f.queue[pos + 1..]);
      SameBooksSameBalance(cfg, f, g);
      if m.event.burst == f.currentBurst {
        DisposedConforms(cfg, m.n, m.event, m.word);
        DisposeIsFaithful(cfg, m.n, m.event, m.word);
        SameBooksSameBalance(cfg, g, Touch(g, m.n));
        ApplyKeepsBalance(cfg, Touch(g, m.n), m.n, DisposeEffect(cfg, m.n, m.event, m.word));
      }
    case EndOfBurst(order, nextBurst) =>
      SweepKeepsBalance(cfg, f, order);
      SameBooksSameBalance(cfg, Sweep(cfg, f, order), After(cfg, f, step));
  }

  lemma InitialBalance(cfg: Config)
    ensures Balanced(cfg, Initial(cfg))
  {
    SumZero(Initial(cfg).slots, InFlight(cfg));
  }

  /** In every state of every run: events completed at L0 = rejected by L1 + processed by L2 + swept
      after completion + still in their slots. The request counter and the storage agree with what
      was done. */
  lemma {:induction false} RunIsBalanced(cfg: Config, steps: seq<Step>, states: seq<Farm>, t: nat)
    requires Run(cfg, steps, states) && t <= |steps|
    ensures Balanced(cfg, states[t])
  {
    hide Balanced, After, Initial, Inv;
    if t == 0 {
      InitialBalance(cfg);
    } else {
      RunIsBalanced(cfg, steps, states, t - 1);
      RunKeepsInv(cfg, steps, states, t - 1);
      StepKeepsBalance(cfg, states[t - 1], steps[t - 1]);
    }
  }

  // ---------- what storage holds ----------

  /** In every reachable state storage holds each record exactly as often as L2 was run on it and kept
      it, that is with L2 off or with a positive decision that asks for nothing more, or it was swept
      as the last event of its burst. */
  lemma StorageIsExactly(cfg: Config, steps: seq<Step>, states: seq<Farm>, t: nat, x: Record)
    requires Run(cfg, steps, states) && t <= |steps|
    ensures multiset(states[t].storage)[x] == Sum(states[t].log, OnEntries(SendOf(cfg, x)))
  {
    hide After, Initial, Sum, Sends;
    RunIsBalanced(cfg, steps, states, t);
  }

  lemma {:induction false} EntryIsInHistory(log: seq<Entry>, i: nat)
    requires i < |log|
    ensures log[i].action in History(log, log[i].n)
  {
    var n := log[i].n;
    if i < |log| - 1 {
      EntryIsInHistory(log[..|log| - 1], i);
    }
  }

  lemma RunHasStates(cfg: Config, steps: seq<Step>, states: seq<Farm>)
    requires Run(cfg, steps, states)
    ensures |states| == |steps| + 1
  {
  }

  lemma LogStaysInPool(cfg: Config, f: Farm, i: nat)
    requires Inv(cfg, f) && i < |f.log|
    ensures f.log[i].n < cfg.poolSize
  {
    hide History, Play, SlotOk, StageOf, QueueOk;
  }

  /** Everything in storage has a reason in the log: an L2 run on the event with all its L0 and L1 data
      that kept it, or the sweep of a last event. */
  lemma StoredForAReason(cfg: Config, steps: seq<Step>, states: seq<Farm>, t: nat, r: Record)
    requires Run(cfg, steps, states) && t <= |steps| && r in states[t].storage
    ensures exists i :: 0 <= i < |states[t].log| && Sends(cfg, states[t].log[i].action, r)
    ensures cfg.isLast(r) || (FullRecord(cfg, r) && Keeps(cfg, r))
  {
    hide After, Initial, Sum, Inv, Run, History, FullRecord, Keeps;
    assert |states| == |steps| + 1 by { RunHasStates(cfg, steps, states); }
    var f := states[t];
    StorageIsExactly(cfg, steps, states, t, r);
    assert r in multiset(f.storage);
    if forall i :: 0 <= i < |f.log| ==> OnEntries(SendOf(cfg, r))(f.log[i]) == 0 {
      SumZero(f.log, OnEntries(SendOf(cfg, r)));
    }
    var i :| 0 <= i < |f.log| && OnEntries(SendOf(cfg, r))(f.log[i]) != 0;
    assert Sends(cfg, f.log[i].action, r);
    if f.log[i].action.RunL2? {
      var n := f.log[i].n;
      RunKeepsInv(cfg, steps, states, t);
      LogStaysInPool(cfg, f, i);
      LifeOfASlot(cfg, steps, states, t, n);
      EntryIsInHistory(f.log, i);
      var h := History(f.log, n);
      var j :| 0 <= j < |h| && h[j] == f.log[i].action;
      assert L2Right(cfg, h, j);
    }
  }

  /** No event waits for non-zero-suppressed data between two steps: the code frees the slot in every
      case, also when the L2 algorithms have just asked for such data. */
  lemma NeverWaitsForMoreData(cfg: Config, steps: seq<Step>, states: seq<Farm>, t: nat, n: nat)
    requires Run(cfg, steps, states) && t <= |steps| && n < cfg.poolSize
    ensures |states[t].slots| == cfg.poolSize && !states[t].slots[n].waitingNonZSuppressed
  {
    hide History, Play, StageOf, QueueOk, After, Initial;
    RunKeepsInv(cfg, steps, states, t);
    assert SlotOk(cfg, states[t].slots[n]);
  }
}
