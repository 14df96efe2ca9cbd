/** The life of an event in its slot, as an automaton over the actions done to it, and what every
    run of the farm keeps. */
module Lifecycle {
  import opened Sums
  import opened Events

  // ---------- the automaton ----------

  datatype Stage =
    | Empty | Building | Whole | Shipped | Decided(passed: bool) | Waiting
    | Done(event: Record) | Sent(event: Record) | Swept(event: Record) | Wrong

  /** L2 keeps an event if it is switched off, or accepts it without asking for more data. */
  predicate Keeps(cfg: Config, r: Record) {
    !cfg.l2Active || (cfg.l2Decide(r).accepted && !cfg.l2Decide(r).waits)
  }

  /** All data expected of the event is there. */
  predicate FullRecord(cfg: Config, r: Record) { r.l0 == cfg.l0Sources && r.l1 == cfg.l1Sources }

  /** May an event at this stage be swept with these data? */
  predicate Sweepable(cfg: Config, s: Stage, r: Record) {
    if r.l0 == cfg.l0Sources then s == Shipped || s == Waiting else s == Building
  }

  function Advance(cfg: Config, s: Stage, a: Action): Stage {
    match a
    case Fill => if s == Empty then Building else Wrong
    case AddL0 => if s == Building then Building else Wrong
    case Complete => if s == Building then Whole else Wrong
    case Ship => if s == Whole then Shipped else Wrong
    case RunL1(word) => if s == Whole || s == Shipped then Decided(word != 0) else Wrong
    case Request => if s == Decided(true) && cfg.l1Sources != {} then Waiting else Wrong
    case AddL1 => if s == Waiting then Waiting else Wrong
    case RunL2(r) => if (s == Decided(true) || s == Waiting) && FullRecord(cfg, r) then Done(r) else Wrong
    case Store(r) =>
      if s == Done(r) && Keeps(cfg, r) then Sent(r)
      else if Sweepable(cfg, s, r) && cfg.isLast(r) then Swept(r)
      else Wrong
    case FreeRejected => if s == Decided(false) then Empty else Wrong
    case FreeProcessed => if s.Sent? || (s.Done? && !Keeps(cfg, s.event)) then Empty else Wrong
    case FreeSwept(r, complete) =>
      if complete == (r.l0 == cfg.l0Sources) && (if cfg.isLast(r) then s == Swept(r) else Sweepable(cfg, s, r)) then Empty
      else Wrong
  }

  function Play(cfg: Config, s: Stage, actions: seq<Action>): Stage {
    if actions == [] then s else Advance(cfg, Play(cfg, s, actions[..|actions| - 1]), actions[|actions| - 1])
  }

  /** The actions done in slot n. */
  function History(log: seq<Entry>, n: nat): seq<Action> {
    if log == [] then []
    else History(log[..|log| - 1], n) + (if log[|log| - 1].n == n then [log[|log| - 1].action] else [])
  }

  /** Where a slot is between two steps, read off its fields. */
  function StageOf(cfg: Config, s: Slot): Stage {
    if !s.unfinished then Empty
    else if s.l0 != cfg.l0Sources then Building
    else if !s.l1Processed then Shipped
    else Waiting
  }

  predicate SlotOk(cfg: Config, s: Slot) {
    && (!s.unfinished ==> s == FREE)
    && s.l0 <= cfg.l0Sources && s.l1 <= cfg.l1Sources
    && (s.l1Processed ==> s.unfinished && s.l0 == cfg.l0Sources && s.l1 != cfg.l1Sources)
    && (s.unfinished && !s.l1Processed ==> s.l1 == {})
    && (s.unfinished && s.l0 == cfg.l0Sources && !s.l1Processed ==> cfg.sharedMemory)
    && !s.waitingNonZSuppressed
    && (s.l1Requested <==> s.l1Processed && cfg.sharedMemory)
  }

  // ---------- one step of the automaton at a time ----------

  lemma {:induction false} PlayConcat(cfg: Config, s: Stage, a: seq<Action>, b: seq<Action>)
    ensures Play(cfg, s, a + b) == Play(cfg, Play(cfg, s, a), b)
    decreases |b|
  {
    hide Advance;
    if b == [] {
      assert a + b == a;
    } else {
      assert (a + b)[..|a + b| - 1] == a + b[..|b| - 1];
      PlayConcat(cfg, s, a, b[..|b| - 1]);
    }
  }

  lemma PlayOne(cfg: Config, s: Stage, a: Action)
    ensures Play(cfg, s, [a]) == Advance(cfg, s, a)
  {
    assert [a][..0] == [];
    assert Play(cfg, s, [a][..0]) == s;
  }

  lemma PlayNone(cfg: Config, s: Stage)
    ensures Play(cfg, s, []) == s
  {
  }

  lemma PlayTwo(cfg: Config, s: Stage, a: Action, b: Action)
    ensures Play(cfg, s, [a, b]) == Advance(cfg, Advance(cfg, s, a), b)
  {
    hide Advance;
    assert [a, b] == [a] + [b];
    PlayConcat(cfg, s, [a], [b]);
    PlayOne(cfg, s, a);
    PlayOne(cfg, Advance(cfg, s, a), b);
  }

  lemma PlayThree(cfg: Config, s: Stage, a: Action, b: Action, c: Action)
    ensures Play(cfg, s, [a, b, c]) == Advance(cfg, Advance(cfg, Advance(cfg, s, a), b), c)
  {
    hide Advance;
    assert [a, b, c] == [a, b] + [c];
    PlayConcat(cfg, s, [a, b], [c]);
    PlayTwo(cfg, s, a, b);
    PlayOne(cfg, Advance(cfg, Advance(cfg, s, a), b), c);
  }

  lemma L2Conforms(cfg: Config, n: nat, s: Slot, stage: Stage)
    requires stage == Decided(true) || stage == Waiting
    requires FullRecord(cfg, DataOf(n, s)) && !s.waitingNonZSuppressed
    ensures Play(cfg, stage, L2Effect(cfg, n, s).actions) == Empty && L2Effect(cfg, n, s).slot == FREE
    ensures !L2Effect(cfg, n, s).shipped && L2Effect(cfg, n, s).requests == 0
  {
    hide Play;
    var r := DataOf(n, s);
    PlayTwo(cfg, stage, RunL2(r), FreeProcessed);
    PlayThree(cfg, stage, RunL2(r), Store(r), FreeProcessed);
  }

  /** Complete at L0, with nothing done to it since. */
  predicate JustCompleted(cfg: Config, s: Slot) {
    && s.unfinished && s.l0 == cfg.l0Sources && s.l1 == {}
    && !s.l1Processed && !s.l1Requested && !s.waitingNonZSuppressed
  }

  lemma DisposeConforms(cfg: Config, n: nat, s: Slot, word: nat, stage: Stage)
    requires stage == Whole || stage == Shipped
    requires JustCompleted(cfg, s)
    ensures var e := DisposeEffect(cfg, n, s, word);
      Play(cfg, stage, e.actions) == StageOf(cfg, e.slot) && SlotOk(cfg, e.slot) && !e.shipped
  {
    hide Play, L2Effect;
    PlayTwo(cfg, stage, RunL1(word), Request);
    PlayTwo(cfg, stage, RunL1(word), FreeRejected);
    PlayOne(cfg, stage, RunL1(word));
    var t := s.(l1Processed := true);
    assert |cfg.l1Sources| != 0 <==> cfg.l1Sources != {};
    if cfg.l1Sources == {} {
      L2Conforms(cfg, n, t, Decided(true));
      PlayConcat(cfg, stage, [RunL1(word)], L2Effect(cfg, n, t).actions);
    }
  }

  lemma L1Conforms(cfg: Config, n: nat, s: Slot, storeOk: bool)
    requires JustCompleted(cfg, s)
    ensures var e := L1Effect(cfg, n, s, storeOk);
      && Play(cfg, Whole, e.actions) == StageOf(cfg, e.slot) && SlotOk(cfg, e.slot)
      && (e.shipped ==> e.slot == s && cfg.sharedMemory)
  {
    hide Play, DisposeEffect;
    DisposeConforms(cfg, n, s, L1_BYPASS_WORD, Whole);
    DisposeConforms(cfg, n, s, cfg.l1Decide(DataOf(n, s)), Whole);
    PlayOne(cfg, Whole, Ship);
  }

  lemma DisposeNeverShips(cfg: Config, n: nat, s: Slot, word: nat)
    ensures !DisposeEffect(cfg, n, s, word).shipped
  {
  }

  /** What an effect does to its slot is a path of the automaton from where the slot was to where it is. */
  ghost predicate Conforms(cfg: Config, s: Slot, e: Effect) {
    && Play(cfg, StageOf(cfg, s), e.actions) == StageOf(cfg, e.slot)
    && SlotOk(cfg, e.slot)
    && (e.shipped ==> StageOf(cfg, e.slot) == Shipped && StageOf(cfg, s) != Shipped)
    && (StageOf(cfg, s) == Shipped ==> e.slot == s || e.slot.l1Processed || !e.slot.unfinished)
  }

  lemma AddL0Conforms(cfg: Config, n: nat, s: Slot, source: nat, burst: nat, storeOk: bool)
    requires SlotOk(cfg, s)
    ensures Conforms(cfg, s, AddL0Effect(cfg, n, s, source, burst, storeOk))
    ensures StageOf(cfg, s) == Shipped ==> AddL0Effect(cfg, n, s, source, burst, storeOk) == Nothing(s)
  {
    hide Play, L1Effect;
    PlayNone(cfg, StageOf(cfg, s));
    if source in cfg.l0Sources && !(s.unfinished && source in s.l0) {
      var u, actions := WithL0(s, source, burst), AddingL0(s);
      PlayOne(cfg, StageOf(cfg, s), AddL0);
      PlayTwo(cfg, StageOf(cfg, s), Fill, AddL0);
      if u.l0 == cfg.l0Sources {
        L1Conforms(cfg, n, u, storeOk);
        PlayConcat(cfg, StageOf(cfg, s), actions + [Complete], L1Effect(cfg, n, u, storeOk).actions);
        PlayConcat(cfg, StageOf(cfg, s), actions, [Complete]);
        PlayOne(cfg, Building, Complete);
      }
    }
  }

  lemma AddL1Conforms(cfg: Config, n: nat, s: Slot, source: nat)
    requires SlotOk(cfg, s)
    ensures Conforms(cfg, s, AddL1Effect(cfg, n, s, source)) && !AddL1Effect(cfg, n, s, source).shipped
    ensures StageOf(cfg, s) == Shipped ==> AddL1Effect(cfg, n, s, source) == Nothing(s)
  {
    hide Play, L2Effect;
    PlayNone(cfg, StageOf(cfg, s));
    PlayOne(cfg, StageOf(cfg, s), AddL1);
    var t := s.(l1 := s.l1 + {source});
    if s.unfinished && s.l1Processed && t.l1 == cfg.l1Sources {
      L2Conforms(cfg, n, t, Waiting);
      PlayConcat(cfg, StageOf(cfg, s), [AddL1], L2Effect(cfg, n, t).actions);
    }
  }

  lemma SweepConforms(cfg: Config, n: nat, s: Slot)
    requires SlotOk(cfg, s)
    ensures Conforms(cfg, s, SweepEffect(cfg, n, s)) && !SweepEffect(cfg, n, s).shipped
    ensures SweepEffect(cfg, n, s).slot == FREE
  {
    hide Play;
    var r, c := DataOf(n, s), s.l0 == cfg.l0Sources;
    PlayNone(cfg, StageOf(cfg, s));
    PlayOne(cfg, StageOf(cfg, s), FreeSwept(r, c));
    PlayTwo(cfg, StageOf(cfg, s), Store(r), FreeSwept(r, c));
    assert [Store(r)] + [FreeSwept(r, c)] == [Store(r), FreeSwept(r, c)];
    assert [] + [FreeSwept(r, c)] == [FreeSwept(r, c)];
  }

  // ---------- what every run keeps ----------

  /** Responses of the current burst are for events that wait for them, one each. */
  predicate QueueOk(cfg: Config, f: Farm) {
    && (forall i :: 0 <= i < |f.queue| ==> f.queue[i].event.burst <= f.currentBurst)
    && (forall i :: 0 <= i < |f.queue| && f.queue[i].event.burst == f.currentBurst ==>
         f.queue[i].n < |f.slots| && f.slots[f.queue[i].n] == f.queue[i].event
         && StageOf(cfg, f.queue[i].event) == Shipped)
    && (forall i, j :: 0 <= i < j < |f.queue| && f.queue[i].event.burst == f.queue[j].event.burst == f.currentBurst ==>
         f.queue[i].n != f.queue[j].n)
  }

  /** No response of the current burst is on its way for slot n. */
  predicate Untied(f: Farm, n: nat) {
    forall i :: 0 <= i < |f.queue| && f.queue[i].event.burst == f.currentBurst ==> f.queue[i].n != n
  }

  ghost predicate Inv(cfg: Config, f: Farm) { PoolOk(cfg, f) && QueueOk(cfg, f) }

  ghost predicate PoolOk(cfg: Config, f: Farm) {
    && |f.slots| == cfg.poolSize && (f.largestTouched == 0 || f.largestTouched < |f.slots|)
    && (forall n :: 0 <= n < |f.slots| ==> SlotOk(cfg, f.slots[n]) && f.slots[n].burst <= f.currentBurst)
    && (forall n :: 0 <= n < |f.slots| && f.slots[n].unfinished ==> n <= f.largestTouched)
    && (forall n :: 0 <= n < |f.slots| ==> Play(cfg, Empty, History(f.log, n)) == StageOf(cfg, f.slots[n]))
    && (forall i :: 0 <= i < |f.log| ==> f.log[i].n < |f.slots|)
  }

  lemma {:induction false} HistoryConcat(a: seq<Entry>, b: seq<Entry>, n: nat)
    ensures History(a + b, n) == History(a, n) + History(b, n)
    decreases |b|
  {
    if b == [] {
      assert a + b == a;
    } else {
      assert (a + b)[..|a + b| - 1] == a + b[..|b| - 1];
      HistoryConcat(a, b[..|b| - 1], n);
    }
  }

  lemma {:induction false} HistoryOfTagged(n: nat, actions: seq<Action>, k: nat)
    ensures History(Tagged(n, actions), k) == if k == n then actions else []
    decreases |actions|
  {
    if actions != [] {
      var init := actions[..|actions| - 1];
      HistoryOfTagged(n, init, k);
      assert Tagged(n, actions)[..|actions| - 1] == Tagged(n, init);
    }
  }

  lemma ApplyExtendsHistory(cfg: Config, f: Farm, n: nat, e: Effect, k: nat)
    requires n < |f.slots|
    ensures History(Apply(cfg, f, n, e).log, k) == History(f.log, k) + (if k == n then e.actions else [])
  {
    HistoryConcat(f.log, Tagged(n, e.actions), k);
    HistoryOfTagged(n, e.actions, k);
  }

  lemma ApplyNothing(cfg: Config, f: Farm, n: nat)
    requires n < |f.slots|
    ensures Apply(cfg, f, n, Nothing(f.slots[n])) == f
  {
    assert f.slots[n := f.slots[n]] == f.slots;
    assert f.storage + [] == f.storage && f.log + [] == f.log && f.queue + [] == f.queue;
  }

  /** A conforming effect on one touched slot keeps the pool in order. */
  lemma ApplyKeepsPool(cfg: Config, f: Farm, n: nat, e: Effect)
    requires n < |f.slots| && PoolOk(cfg, f) && Conforms(cfg, f.slots[n], e) && n <= f.largestTouched
    requires e.slot.burst <= f.currentBurst
    ensures PoolOk(cfg, Apply(cfg, f, n, e))
  {
    hide StageOf, SlotOk, Play;
    var g := Apply(cfg, f, n, e);
    forall k | 0 <= k < |g.slots| ensures Play(cfg, Empty, History(g.log, k)) == StageOf(cfg, g.slots[k]) {
      ApplyExtendsHistory(cfg, f, n, e, k);
      if k == n {
        PlayConcat(cfg, Empty, History(f.log, n), e.actions);
      } else {
        assert History(f.log, k) + [] == History(f.log, k);
      }
    }
  }

  /** It keeps the queue in order, too, if no response is on its way for the slot or the slot stays. */
  lemma ApplyKeepsQueue(cfg: Config, f: Farm, n: nat, e: Effect)
    requires n < |f.slots| && QueueOk(cfg, f) && Conforms(cfg, f.slots[n], e)
    requires e.slot.burst <= f.currentBurst
    requires Untied(f, n) || e.slot == f.slots[n]
    ensures QueueOk(cfg, Apply(cfg, f, n, e))
  {
    hide StageOf, SlotOk, Play;
    var g := Apply(cfg, f, n, e);
    forall i | 0 <= i < |g.queue| && g.queue[i].event.burst == g.currentBurst
      ensures g.queue[i].n < |g.slots| && g.slots[g.queue[i].n] == g.queue[i].event
        && StageOf(cfg, g.queue[i].event) == Shipped
      ensures i >= |f.queue| ==> forall j :: 0 <= j < i && g.queue[j].event.burst == g.currentBurst ==> g.queue[j].n != n
    {
      if i < |f.queue| {
        assert g.queue[i] == f.queue[i];
      }
    }
  }

  lemma TouchKeepsInv(cfg: Config, f: Farm, n: nat)
    requires Inv(cfg, f) && n < |f.slots|
    ensures Inv(cfg, Touch(f, n)) && n <= Touch(f, n).largestTouched
  {
    hide StageOf, SlotOk, Play, History;
  }

  lemma UnshippedIsUntied(cfg: Config, f: Farm, n: nat)
    requires QueueOk(cfg, f) && n < |f.slots| && StageOf(cfg, f.slots[n]) != Shipped
    ensures Untied(f, n)
  {
  }

  lemma AddL0Burst(cfg: Config, n: nat, s: Slot, source: nat, burst: nat, storeOk: bool, bound: nat)
    requires s.burst <= bound && burst <= bound
    ensures AddL0Effect(cfg, n, s, source, burst, storeOk).slot.burst <= bound
  {
  }

  lemma L0KeepsInv(cfg: Config, f: Farm, n: nat, source: nat, burst: nat, storeOk: bool)
    requires Inv(cfg, f) && burst <= f.currentBurst
    ensures Inv(cfg, After(cfg, f, L0Fragment(n, source, burst, storeOk)))
  {
    hide StageOf, SlotOk, Play, QueueOk, Conforms;
    if n < |f.slots| {
      var g := Touch(f, n);
      TouchKeepsInv(cfg, f, n);
      AddL0Conforms(cfg, n, f.slots[n], source, burst, storeOk);
      AddL0Burst(cfg, n, f.slots[n], source, burst, storeOk, f.currentBurst);
      var e := AddL0Effect(cfg, n, f.slots[n], source, burst, storeOk);
      if StageOf(cfg, f.slots[n]) != Shipped { UnshippedIsUntied(cfg, g, n); }
      ApplyKeepsPool(cfg, g, n, e);
      ApplyKeepsQueue(cfg, g, n, e);
    }
  }

  lemma L1KeepsInv(cfg: Config, f: Farm, n: nat, source: nat)
    requires Inv(cfg, f)
    ensures Inv(cfg, After(cfg, f, L1Fragment(n, source)))
  {
    hide StageOf, SlotOk, Play, QueueOk, Conforms;
    if n < |f.slots| {
      var g := Touch(f, n);
      TouchKeepsInv(cfg, f, n);
      AddL1Conforms(cfg, n, f.slots[n], source);
      var e := AddL1Effect(cfg, n, f.slots[n], source);
      assert e.slot.burst <= f.currentBurst;
      if StageOf(cfg, f.slots[n]) != Shipped { UnshippedIsUntied(cfg, g, n); }
      ApplyKeepsPool(cfg, g, n, e);
      ApplyKeepsQueue(cfg, g, n, e);
    }
  }

  lemma TakingKeepsInv(cfg: Config, f: Farm, pos: nat)
    requires Inv(cfg, f) && pos < |f.queue|
    ensures var g := f.(queue := f.queue[..pos] + f.queue[pos + 1..]);
      && Inv(cfg, g)
      && (f.queue[pos].event.burst == f.currentBurst ==> Untied(g, f.queue[pos].n))
  {
    hide StageOf, SlotOk, Play, History;
    var g := f.(queue := f.queue[..pos] + f.queue[pos + 1..]);
    forall i | 0 <= i < |g.queue| ensures g.queue[i] == f.queue[if i < pos then i else i + 1] {}
  }

  lemma DisposedConforms(cfg: Config, n: nat, s: Slot, word: nat)
    requires SlotOk(cfg, s) && StageOf(cfg, s) == Shipped
    ensures Conforms(cfg, s, DisposeEffect(cfg, n, s, word)) && DisposeEffect(cfg, n, s, word).slot.burst <= s.burst
  {
    hide Play;
    DisposeConforms(cfg, n, s, word, Shipped);
  }

  lemma ResponseKeepsInv(cfg: Config, f: Farm, pos: nat)
    requires Inv(cfg, f) && pos < |f.queue|
    ensures Inv(cfg, After(cfg, f, Response(pos)))
    ensures var m, r := f.queue[pos], After(cfg, f, Response(pos));
      && r.queue == f.queue[..pos] + f.queue[pos + 1..]
      && (m.event.burst != f.currentBurst ==> r.slots == f.slots && r.log == f.log && r.storage == f.storage)
      && (m.event.burst == f.currentBurst ==>
            m.n < |f.slots| && f.slots[m.n] == m.event && StageOf(cfg, m.event) == Shipped
            && r.slots == f.slots[m.n := DisposeEffect(cfg, m.n, m.event, m.word).slot])
  {
    hide StageOf, SlotOk, Play, Conforms, DisposeEffect;
    var m := f.queue[pos];
    var g := f.(queue := f.queue[..pos] + f.queue[pos + 1..]);
    TakingKeepsInv(cfg, f, pos);
    if m.event.burst == f.currentBurst {
      TouchKeepsInv(cfg, g, m.n);
      DisposedConforms(cfg, m.n, m.event, m.word);
      var e := DisposeEffect(cfg, m.n, m.event, m.word);
      ApplyKeepsPool(cfg, Touch(g, m.n), m.n, e);
      ApplyKeepsQueue(cfg, Touch(g, m.n), m.n, e);
      DisposeNeverShips(cfg, m.n, m.event, m.word);
      assert g.queue + [] == g.queue;
    }
  }

  lemma {:induction false} SweepKeepsPool(cfg: Config, f: Farm, order: seq<nat>)
    requires PoolOk(cfg, f) && forall i :: 0 <= i < |order| ==> order[i] < |f.slots| && order[i] <= f.largestTouched
    ensures PoolOk(cfg, Sweep(cfg, f, order))
    ensures Sweep(cfg, f, order).largestTouched == f.largestTouched
    ensures Sweep(cfg, f, order).currentBurst == f.currentBurst && Sweep(cfg, f, order).queue == f.queue
  {
    hide StageOf, SlotOk, Play, Conforms, SweepEffect, History;
    if order != [] {
      var init, n := order[..|order| - 1], order[|order| - 1];
      SweepKeepsPool(cfg, f, init);
      var g := Sweep(cfg, f, init);
      SweepConforms(cfg, n, g.slots[n]);
      ApplyKeepsPool(cfg, g, n, SweepEffect(cfg, n, g.slots[n]));
    }
  }

  lemma EndOfBurstKeepsInv(cfg: Config, f: Farm, order: seq<nat>, nextBurst: nat)
    requires Inv(cfg, f) && Enabled(f, EndOfBurst(order, nextBurst))
    ensures Inv(cfg, After(cfg, f, EndOfBurst(order, nextBurst)))
  {
    hide StageOf, SlotOk, Play, History;
    SweepKeepsPool(cfg, f, order);
  }

  lemma StepKeepsInv(cfg: Config, f: Farm, step: Step)
    requires Inv(cfg, f) && Enabled(f, step)
    ensures Inv(cfg, After(cfg, f, step))
  {
    hide Inv, After;
    match step
    case L0Fragment(n, source, burst, storeOk) => L0KeepsInv(cfg, f, n, source, burst, storeOk);
    case L1Fragment(n, source) => L1KeepsInv(cfg, f, n, source);
    case Response(pos) => ResponseKeepsInv(cfg, f, pos);
    case EndOfBurst(order, nextBurst) => EndOfBurstKeepsInv(cfg, f, order, nextBurst);
  }

  lemma InitialInv(cfg: Config)
    ensures Inv(cfg, Initial(cfg))
  {
  }

  /** Every state of every run is in order: each slot's history is a path of the automaton that ends
      where the slot's fields say it is. */
  lemma {:induction false} RunKeepsInv(cfg: Config, steps: seq<Step>, states: seq<Farm>, i: nat)
    requires Run(cfg, steps, states) && i <= |steps|
    ensures Inv(cfg, states[i])
  {
    hide Inv, After, Initial;
    if i == 0 {
      InitialInv(cfg);
    } else {
      RunKeepsInv(cfg, steps, states, i - 1);
      StepKeepsInv(cfg, states[i - 1], steps[i - 1]);
    }
  }
}
