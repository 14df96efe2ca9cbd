/** The shared-memory variant of the L1 trigger against the inline one. In the first, a completed event
    is shipped and its disposition done later, when the response is taken from the queue, in whatever
    order; in the second it is done at once. */
module SharedMemoryRefinement {
  import opened Sums
  import opened Events
  import opened Lifecycle
  import opened EndOfBurstSweep

  /** The same farm built without shared memory. */
  function Inlined(cfg: Config): Config { cfg.(sharedMemory := false) }

  /** Only the shared-memory variant marks events as requested; nothing else depends on the mark. */
  function Unmarked(s: Slot): Slot { s.(l1Requested := false) }

  /** What taking the message from the queue will do. */
  function Due(cfg: Config, m: Message): Effect { DisposeEffect(cfg, m.n, m.event, m.word) }

  // Responses of an older burst are dropped when taken: of them nothing is due.

  function DueRequests(cfg: Config, burst: nat): Message -> int {
    (m: Message) => if m.event.burst == burst then Due(cfg, m).requests else 0
  }

  function DueRecords(cfg: Config, burst: nat, x: Record): Message -> int {
    (m: Message) => if m.event.burst == burst then multiset(Due(cfg, m).stored)[x] as int else 0
  }

  function DueEntries(cfg: Config, burst: nat, e: Entry): Message -> int {
    (m: Message) => if m.event.burst == burst then multiset(Tagged(m.n, Due(cfg, m).actions))[e] as int else 0
  }

  /** The inline state is the shared-memory state with all responses taken. */
  ghost predicate Simulates(cfg: Config, f: Farm, g: Farm) {
    && |f.slots| == |g.slots| && f.currentBurst == g.currentBurst
    && (forall n :: 0 <= n < |f.slots| && Untied(f, n) ==> Unmarked(f.slots[n]) == Unmarked(g.slots[n]))
    && PendingMatch(cfg, f, g)
    && g.l1Requests == f.l1Requests + Sum(f.queue, DueRequests(cfg, f.currentBurst))
    && (forall x :: multiset(g.storage)[x] == multiset(f.storage)[x] + Sum(f.queue, DueRecords(cfg, f.currentBurst, x)))
    && (forall e: Entry :: e.action != Ship ==>
         multiset(g.log)[e] == multiset(f.log)[e] + Sum(f.queue, DueEntries(cfg, f.currentBurst, e)))
  }

  ghost predicate PendingMatch(cfg: Config, f: Farm, g: Farm)
    requires |f.slots| == |g.slots|
  {
    forall i :: 0 <= i < |f.queue| && f.queue[i].event.burst == f.currentBurst ==>
      && f.queue[i].n < |g.slots|
      && Unmarked(Due(cfg, f.queue[i]).slot) == Unmarked(g.slots[f.queue[i].n])
  }

  // ---------- effects side by side ----------

  /** Equal effects, up to the mark and up to what the shipped event still has due. */
  ghost predicate EffectsMatch(cfg: Config, n: nat, e: Effect, l: Effect) {
    if e.shipped then
      var d := Due(cfg, Message(n, e.slot, cfg.l1Decide(DataOf(n, e.slot))));
      && Unmarked(l.slot) == Unmarked(d.slot) && l.requests == e.requests + d.requests
      && l.stored == e.stored + d.stored
      && forall a :: a != Ship ==> multiset(l.actions)[a] == multiset(e.actions)[a] + multiset(d.actions)[a]
    else
      Unmarked(l.slot) == Unmarked(e.slot) && l.requests == e.requests && l.stored == e.stored && l.actions == e.actions
  }

  lemma DisposeMatches(cfg: Config, n: nat, s: Slot, t: Slot, word: nat)
    requires Unmarked(s) == Unmarked(t)
    ensures var e, l := DisposeEffect(cfg, n, s, word), DisposeEffect(Inlined(cfg), n, t, word);
      && Unmarked(l.slot) == Unmarked(e.slot) && l.requests == e.requests && l.stored == e.stored
      && l.actions == e.actions && !l.shipped && !e.shipped
  {
  }

  lemma L1Matches(cfg: Config, n: nat, s: Slot, t: Slot, storeOk: bool)
    requires cfg.sharedMemory && Unmarked(s) == Unmarked(t)
    ensures EffectsMatch(cfg, n, L1Effect(cfg, n, s, true), L1Effect(Inlined(cfg), n, t, storeOk))
    ensures !L1Effect(Inlined(cfg), n, t, storeOk).shipped
  {
    hide DisposeEffect;
    DisposeMatches(cfg, n, s, t, cfg.l1Decide(DataOf(n, s)));
  }

  lemma ThenMatches(cfg: Config, n: nat, actions: seq<Action>, e: Effect, l: Effect)
    requires EffectsMatch(cfg, n, e, l)
    ensures EffectsMatch(cfg, n, Then(actions, e), Then(actions, l))
    ensures Then(actions, l).shipped == l.shipped
  {
    hide DisposeEffect;
    assert multiset(actions + e.actions) == multiset(actions) + multiset(e.actions);
    assert multiset(actions + l.actions) == multiset(actions) + multiset(l.actions);
  }

  lemma PlainMatches(cfg: Config, n: nat, s: Slot, t: Slot, actions: seq<Action>)
    requires Unmarked(s) == Unmarked(t)
    ensures EffectsMatch(cfg, n, Effect(s, actions, [], 0, false), Effect(t, actions, [], 0, false))
  {
  }

  lemma AddL0Matches(cfg: Config, n: nat, s: Slot, t: Slot, source: nat, burst: nat, storeOk: bool)
    requires cfg.sharedMemory && Unmarked(s) == Unmarked(t)
    ensures EffectsMatch(cfg, n, AddL0Effect(cfg, n, s, source, burst, true),
      AddL0Effect(Inlined(cfg), n, t, source, burst, storeOk))
    ensures !AddL0Effect(Inlined(cfg), n, t, source, burst, storeOk).shipped
  {
    hide L1Effect, Due, Then, EffectsMatch;
    PlainMatches(cfg, n, s, t, []);
    PlainMatches(cfg, n, WithL0(s, source, burst), WithL0(t, source, burst), AddingL0(s));
    var u, v := WithL0(s, source, burst), WithL0(t, source, burst);
    L1Matches(cfg, n, u, v, storeOk);
    ThenMatches(cfg, n, AddingL0(s) + [Complete], L1Effect(cfg, n, u, true), L1Effect(Inlined(cfg), n, v, storeOk));
  }

  lemma L2Same(cfg: Config, n: nat, s: Slot, t: Slot)
    requires Unmarked(s) == Unmarked(t)
    ensures L2Effect(cfg, n, s) == L2Effect(Inlined(cfg), n, t)
  {
  }

  lemma L2NeverShips(cfg: Config, n: nat, s: Slot)
    ensures !L2Effect(cfg, n, s).shipped
  {
  }

  lemma AddL1Matches(cfg: Config, n: nat, s: Slot, t: Slot, source: nat)
    requires Unmarked(s) == Unmarked(t)
    ensures EffectsMatch(cfg, n, AddL1Effect(cfg, n, s, source), AddL1Effect(Inlined(cfg), n, t, source))
    ensures !AddL1Effect(cfg, n, s, source).shipped && !AddL1Effect(Inlined(cfg), n, t, source).shipped
  {
    hide Due, L2Effect;
    L2Same(cfg, n, s.(l1 := s.l1 + {source}), t.(l1 := t.l1 + {source}));
    L2NeverShips(cfg, n, s.(l1 := s.l1 + {source}));
  }

  // ---------- steps side by side ----------

  lemma {:induction false} TaggedCount(n: nat, actions: seq<Action>, e: Entry)
    ensures multiset(Tagged(n, actions))[e] == if e.n == n then multiset(actions)[e.action] else 0
    decreases |actions|
  {
    if actions != [] {
      var init, last := actions[..|actions| - 1], actions[|actions| - 1];
      TaggedCount(n, init, e);
      assert Tagged(n, actions) == Tagged(n, init) + [Entry(n, last)];
      assert actions == init + [last];
    }
  }

  lemma DueRequestsIs(cfg: Config, b: nat, m: Message)
    ensures DueRequests(cfg, b)(m) == if m.event.burst == b then Due(cfg, m).requests else 0
  {
  }

  lemma DueRecordsIs(cfg: Config, b: nat, x: Record, m: Message)
    ensures DueRecords(cfg, b, x)(m) == if m.event.burst == b then multiset(Due(cfg, m).stored)[x] else 0
  {
  }

  lemma DueEntriesIs(cfg: Config, b: nat, x: Entry, m: Message)
    ensures DueEntries(cfg, b, x)(m)
      == if m.event.burst == b && x.n == m.n then multiset(Due(cfg, m).actions)[x.action] else 0
  {
    hide Due;
    TaggedCount(m.n, Due(cfg, m).actions, x);
  }

  lemma QueueSum(cfg: Config, f: Farm, n: nat, e: Effect, w: Message -> int)
    requires n < |f.slots|
    ensures Sum(Apply(cfg, f, n, e).queue, w) == Sum(f.queue, w)
      + if e.shipped then w(Message(n, e.slot, cfg.l1Decide(DataOf(n, e.slot)))) else 0
  {
    var m := Message(n, e.slot, cfg.l1Decide(DataOf(n, e.slot)));
    SumSingle(m, w);
    SumConcat(f.queue, [m], w);
    assert f.queue + [] == f.queue;
  }

  lemma ShippedIsTied(cfg: Config, f: Farm, n: nat, e: Effect)
    requires n < |f.slots| && e.shipped && e.slot.burst == f.currentBurst
    ensures !Untied(Apply(cfg, f, n, e), n)
  {
    assert Apply(cfg, f, n, e).queue[|f.queue|].n == n;
  }

  lemma SlotsStayMatched(cfg: Config, f: Farm, g: Farm, n: nat, e: Effect, l: Effect)
    requires Simulates(cfg, f, g) && n < |f.slots| && Untied(f, n)
    requires EffectsMatch(cfg, n, e, l) && (e.shipped ==> e.slot.burst == f.currentBurst)
    ensures var f', g' := Apply(cfg, f, n, e), Apply(Inlined(cfg), g, n, l);
      && (forall k :: 0 <= k < |f'.slots| && Untied(f', k) ==> Unmarked(f'.slots[k]) == Unmarked(g'.slots[k]))
      && PendingMatch(cfg, f', g')
  {
    hide Due, DisposeEffect, Sum;
    var f', g' := Apply(cfg, f, n, e), Apply(Inlined(cfg), g, n, l);
    forall k | 0 <= k < |f'.slots| && Untied(f', k) ensures Unmarked(f'.slots[k]) == Unmarked(g'.slots[k]) {
      assert forall i :: 0 <= i < |f.queue| ==> f'.queue[i] == f.queue[i];
      assert Untied(f, k);
      if e.shipped { ShippedIsTied(cfg, f, n, e); }
    }
  }

  /** Matching effects on a slot without a pending response. */
  lemma ApplySimulates(cfg: Config, f: Farm, g: Farm, n: nat, e: Effect, l: Effect)
    requires Simulates(cfg, f, g) && n < |f.slots| && Untied(f, n)
    requires EffectsMatch(cfg, n, e, l) && !l.shipped && (e.shipped ==> e.slot.burst == f.currentBurst)
    ensures Simulates(cfg, Apply(cfg, f, n, e), Apply(Inlined(cfg), g, n, l))
  {
    hide Due, Tagged, Untied, PendingMatch, Sum, DueRequests, DueRecords, DueEntries;
    var f', g' := Apply(cfg, f, n, e), Apply(Inlined(cfg), g, n, l);
    var m := Message(n, e.slot, cfg.l1Decide(DataOf(n, e.slot)));
    var b := f.currentBurst;
    QueueSum(cfg, f, n, e, DueRequests(cfg, b));
    DueRequestsIs(cfg, b, m);
    SlotsStayMatched(cfg, f, g, n, e, l);
    forall x ensures multiset(g'.storage)[x] == multiset(f'.storage)[x] + Sum(f'.queue, DueRecords(cfg, b, x)) {
      QueueSum(cfg, f, n, e, DueRecords(cfg, b, x));
      DueRecordsIs(cfg, b, x, m);
    }
    forall x: Entry | x.action != Ship
      ensures multiset(g'.log)[x] == multiset(f'.log)[x] + Sum(f'.queue, DueEntries(cfg, b, x))
    {
      QueueSum(cfg, f, n, e, DueEntries(cfg, b, x));
      DueEntriesIs(cfg, b, x, m);
      TaggedCount(n, l.actions, x);
      TaggedCount(n, e.actions, x);
    }
  }

  lemma TouchSimulates(cfg: Config, f: Farm, g: Farm, n: nat)
    requires Simulates(cfg, f, g)
    ensures Simulates(cfg, Touch(f, n), Touch(g, n)) && (n < |f.slots| && Untied(f, n) ==> Untied(Touch(f, n), n))
  {
    hide Sum, Due, DueRecords, DueEntries, DueRequests;
  }

  lemma StillUntied(f: Farm, f': Farm, pos: nat, k: nat)
    requires pos < |f.queue| && f'.queue == f.queue[..pos] + f.queue[pos + 1..] && f'.currentBurst == f.currentBurst
    requires Untied(f', k) && (f.queue[pos].n != k || f.queue[pos].event.burst != f.currentBurst)
    ensures Untied(f, k)
  {
    forall i | 0 <= i < |f.queue| && f.queue[i].event.burst == f.currentBurst ensures f.queue[i].n != k {
      if i < pos { assert f'.queue[i] == f.queue[i]; }
      if i > pos { assert f'.queue[i - 1] == f.queue[i]; }
    }
  }

  /** What is due of the one message happens, and nothing if it is of an older burst. */
  lemma ResponseEffect(cfg: Config, f: Farm, g: Farm, pos: nat)
    requires Simulates(cfg, f, g) && Inv(cfg, f) && pos < |f.queue|
    ensures var m, f' := f.queue[pos], After(cfg, f, Response(pos));
      && f'.queue == f.queue[..pos] + f.queue[pos + 1..] && f'.currentBurst == f.currentBurst
      && |f'.slots| == |f.slots|
      && if m.event.burst == f.currentBurst then
           && f'.slots == f.slots[m.n := DisposeEffect(cfg, m.n, m.event, m.word).slot]
           && f'.l1Requests == f.l1Requests + Due(cfg, m).requests && f'.storage == f.storage + Due(cfg, m).stored
           && f'.log == f.log + Tagged(m.n, Due(cfg, m).actions)
         else f'.slots == f.slots && f'.l1Requests == f.l1Requests && f'.storage == f.storage && f'.log == f.log
  {
    hide Tagged, StageOf, SlotOk, Play, History, Sum, PoolOk, L2Effect, DueRequests, DueRecords, DueEntries;
    var m := f.queue[pos];
    DisposeMatches(cfg, m.n, m.event, m.event, m.word);
  }

  lemma ResponseKeepsSlots(cfg: Config, f: Farm, g: Farm, pos: nat)
    requires Simulates(cfg, f, g) && Inv(cfg, f) && pos < |f.queue|
    ensures var f' := After(cfg, f, Response(pos));
      && |f'.slots| == |f.slots| && f'.currentBurst == f.currentBurst
      && (forall k :: 0 <= k < |f'.slots| && Untied(f', k) ==> Unmarked(f'.slots[k]) == Unmarked(g.slots[k]))
      && PendingMatch(cfg, f', g)
  {
    hide DisposeEffect, Tagged, StageOf, SlotOk, Play, History, Sum, PoolOk, DueRequests, DueRecords, DueEntries, After;
    var m, f' := f.queue[pos], After(cfg, f, Response(pos));
    ResponseEffect(cfg, f, g, pos);
    forall k | 0 <= k < |f'.slots| && Untied(f', k) ensures Unmarked(f'.slots[k]) == Unmarked(g.slots[k]) {
      if k != m.n || m.event.burst != f.currentBurst {
        StillUntied(f, f', pos, k);
      }
    }
    forall i | 0 <= i < |f'.queue| ensures f'.queue[i] == f.queue[if i < pos then i else i + 1] {}
  }

  /** Taking one response, whichever it is, changes nothing in the inline state. */
  lemma ResponseSimulates(cfg: Config, f: Farm, g: Farm, pos: nat)
    requires Simulates(cfg, f, g) && Inv(cfg, f) && pos < |f.queue|
    ensures Simulates(cfg, After(cfg, f, Response(pos)), g)
  {
    hide Due, Tagged, Inv, After, PendingMatch, Untied, DueRequests, DueRecords, DueEntries, Sum;
    var m, f', b := f.queue[pos], After(cfg, f, Response(pos)), f.currentBurst;
    ResponseEffect(cfg, f, g, pos);
    ResponseKeepsSlots(cfg, f, g, pos);
    SumPick(f.queue, pos, DueRequests(cfg, b));
    DueRequestsIs(cfg, b, m);
    forall x ensures multiset(g.storage)[x] == multiset(f'.storage)[x] + Sum(f'.queue, DueRecords(cfg, b, x)) {
      SumPick(f.queue, pos, DueRecords(cfg, b, x));
      DueRecordsIs(cfg, b, x, m);
    }
    forall e: Entry | e.action != Ship
      ensures multiset(g.log)[e] == multiset(f'.log)[e] + Sum(f'.queue, DueEntries(cfg, b, e))
    {
      SumPick(f.queue, pos, DueEntries(cfg, b, e));
      DueEntriesIs(cfg, b, e, m);
      TaggedCount(m.n, Due(cfg, m).actions, e);
    }
  }

  // ---------- runs side by side ----------

  /** The inline farm's answer to a step of the shared-memory farm: responses are nothing to it. */
  function InlineStep(cfg: Config, g: Farm, step: Step): Farm {
    if (step.L0Fragment? || step.L1Fragment?) && Enabled(g, step) then After(cfg, g, step) else g
  }

  /** No burst change, and every event fits into the shared memory. */
  predicate Plain(f: Farm, step: Step) {
    match step
    case L0Fragment(_, _, burst, storeOk) => storeOk && burst == f.currentBurst
    case L1Fragment(_, _) => true
    case Response(_) => true
    case EndOfBurst(_, _) => false
  }

  /** The i-th response on its way is of the current burst and for slot n. */
  predicate Ties(f: Farm, i: nat, n: nat)
    requires i < |f.queue|
  {
    f.queue[i].event.burst == f.currentBurst && f.queue[i].n == n
  }

  /** What a fragment for an event whose response is still on its way must be for the two farms not to
      part. The shared-memory farm drops it. So does the inline farm, if the fragment is an expected L0
      one, only while the event is still in its slot; if it is an expected L1 one, only once the event
      has left it. */
  predicate Harmless(cfg: Config, f: Farm, step: Step) {
    match step
    case L0Fragment(n, source, _, _) =>
      source in cfg.l0Sources ==>
        forall i :: 0 <= i < |f.queue| && Ties(f, i, n) ==> Due(cfg, f.queue[i]).slot.unfinished
    case L1Fragment(n, source) =>
      source in cfg.l1Sources ==>
        forall i :: 0 <= i < |f.queue| && Ties(f, i, n) ==> !Due(cfg, f.queue[i]).slot.unfinished
    case _ => true
  }

  predicate OneBurst(f: Farm) {
    forall n :: 0 <= n < |f.slots| && f.slots[n].unfinished ==> f.slots[n].burst == f.currentBurst
  }

  lemma NothingDueOutside(cfg: Config, f: Farm, g: Farm, n: nat)
    requires Simulates(cfg, f, g) && n >= |f.slots|
    ensures forall i :: 0 <= i < |f.queue| ==> !Ties(f, i, n)
  {
  }

  lemma UntiedIsHarmless(cfg: Config, f: Farm, g: Farm, n: nat)
    requires Simulates(cfg, f, g) && Untied(f, n)
    ensures forall i :: 0 <= i < |f.queue| ==> !Ties(f, i, n)
  {
  }

  /** The one message for a tied slot, and what both farms hold there. */
  lemma TiedSlot(cfg: Config, f: Farm, g: Farm, n: nat) returns (m: Message)
    requires Simulates(cfg, f, g) && Inv(cfg, f) && n < |f.slots| && !Untied(f, n)
    ensures exists i :: 0 <= i < |f.queue| && Ties(f, i, n)
    ensures m.n == n && m.event == f.slots[n] && StageOf(cfg, m.event) == Shipped && SlotOk(cfg, m.event)
    ensures Unmarked(Due(cfg, m).slot) == Unmarked(g.slots[n])
    ensures forall i :: 0 <= i < |f.queue| && Ties(f, i, n) ==> f.queue[i] == m
  {
    hide Due, History, Play, StageOf, SlotOk, Sum;
    var i :| 0 <= i < |f.queue| && f.queue[i].event.burst == f.currentBurst && f.queue[i].n == n;
    m := f.queue[i];
    assert Ties(f, i, n);
  }

  /** A slot due to be occupied holds all its L0 data and no L1 data. */
  lemma DueSlotShape(cfg: Config, m: Message)
    requires StageOf(cfg, m.event) == Shipped && SlotOk(cfg, m.event)
    ensures var d := Due(cfg, m).slot;
      d == FREE || (d.unfinished && d.l1Processed && d.l0 == cfg.l0Sources && d.l1 == {})
  {
  }

  /** Something the inline farm did and the shared-memory farm has neither done nor due. */
  lemma ExtraEntry(cfg: Config, f: Farm, g: Farm, g': Farm, x: Entry)
    requires Simulates(cfg, f, g) && x.action != Ship && multiset(g'.log)[x] > multiset(g.log)[x]
    ensures !Simulates(cfg, f, g')
  {
    hide Due, DueEntries, Sum;
    assert multiset(g.log)[x] == multiset(f.log)[x] + Sum(f.queue, DueEntries(cfg, f.currentBurst, x));
  }

  lemma ApplyLogs(cfg: Config, g: Farm, n: nat, e: Effect, a: Action)
    requires n < |g.slots| && a in e.actions
    ensures multiset(Apply(cfg, g, n, e).log)[Entry(n, a)] > multiset(g.log)[Entry(n, a)]
  {
    TaggedCount(n, e.actions, Entry(n, a));
    assert a in multiset(e.actions);
  }

  lemma TiedL0(cfg: Config, f: Farm, g: Farm, n: nat, source: nat, burst: nat, storeOk: bool)
    requires cfg.sharedMemory && Simulates(cfg, f, g) && Inv(cfg, f) && n < |f.slots| == |g.slots| && !Untied(f, n)
    requires f.currentBurst == g.currentBurst == burst
    ensures Simulates(cfg, After(cfg, f, L0Fragment(n, source, burst, storeOk)),
        InlineStep(Inlined(cfg), g, L0Fragment(n, source, burst, storeOk)))
      <==> Harmless(cfg, f, L0Fragment(n, source, burst, storeOk))
  {
    hide Simulates, Due, StageOf, SlotOk, Apply, L1Effect, Inv, Untied;
    var m := TiedSlot(cfg, f, g, n);
    DueSlotShape(cfg, m);
    AddL0Conforms(cfg, n, f.slots[n], source, burst, storeOk);
    ApplyNothing(cfg, Touch(f, n), n);
    TouchSimulates(cfg, f, g, n);
    var l := AddL0Effect(Inlined(cfg), n, g.slots[n], source, burst, storeOk);
    assert After(cfg, f, L0Fragment(n, source, burst, storeOk)) == Touch(f, n);
    assert InlineStep(Inlined(cfg), g, L0Fragment(n, source, burst, storeOk)) == Apply(Inlined(cfg), Touch(g, n), n, l);
    if source !in cfg.l0Sources || Due(cfg, m).slot.unfinished {
      ApplyNothing(Inlined(cfg), Touch(g, n), n);
    } else {
      assert Fill in l.actions;
      ApplyLogs(Inlined(cfg), Touch(g, n), n, l, Fill);
      ExtraEntry(cfg, Touch(f, n), Touch(g, n), Apply(Inlined(cfg), Touch(g, n), n, l), Entry(n, Fill));
    }
  }

  lemma TiedL1(cfg: Config, f: Farm, g: Farm, n: nat, source: nat)
    requires Simulates(cfg, f, g) && Inv(cfg, f) && n < |f.slots| == |g.slots| && !Untied(f, n)
    ensures Simulates(cfg, After(cfg, f, L1Fragment(n, source)), InlineStep(Inlined(cfg), g, L1Fragment(n, source)))
      <==> Harmless(cfg, f, L1Fragment(n, source))
  {
    hide Simulates, Due, StageOf, SlotOk, Apply, L2Effect, Inv, Untied;
    var m := TiedSlot(cfg, f, g, n);
    DueSlotShape(cfg, m);
    AddL1Conforms(cfg, n, f.slots[n], source);
    ApplyNothing(cfg, Touch(f, n), n);
    TouchSimulates(cfg, f, g, n);
    var l := AddL1Effect(Inlined(cfg), n, g.slots[n], source);
    assert After(cfg, f, L1Fragment(n, source)) == Touch(f, n);
    assert InlineStep(Inlined(cfg), g, L1Fragment(n, source)) == Apply(Inlined(cfg), Touch(g, n), n, l);
    if source !in cfg.l1Sources || !Due(cfg, m).slot.unfinished {
      ApplyNothing(Inlined(cfg), Touch(g, n), n);
    } else {
      assert AddL1 in l.actions;
      ApplyLogs(Inlined(cfg), Touch(g, n), n, l, AddL1);
      ExtraEntry(cfg, Touch(f, n), Touch(g, n), Apply(Inlined(cfg), Touch(g, n), n, l), Entry(n, AddL1));
    }
  }

  lemma SameShape(cfg: Config, f: Farm, g: Farm)
    requires Simulates(cfg, f, g)
    ensures |f.slots| == |g.slots| && f.currentBurst == g.currentBurst
    ensures forall n :: 0 <= n < |f.slots| && Untied(f, n) ==> Unmarked(f.slots[n]) == Unmarked(g.slots[n])
  {
  }

  lemma ShippedBurst(cfg: Config, n: nat, s: Slot, source: nat, burst: nat)
    requires !s.unfinished || s.burst == burst
    ensures var e := AddL0Effect(cfg, n, s, source, burst, true);
      (e.shipped ==> e.slot.burst == burst) && (!e.slot.unfinished || e.slot.burst == burst || e.slot == s)
  {
  }

  lemma L0Simulates(cfg: Config, f: Farm, g: Farm, n: nat, source: nat, burst: nat, storeOk: bool)
    requires cfg.sharedMemory && Simulates(cfg, f, g) && OneBurst(f)
    requires n < |f.slots| && |f.slots| == |g.slots| && Untied(f, n) && burst == f.currentBurst
    ensures Simulates(cfg, Apply(cfg, Touch(f, n), n, AddL0Effect(cfg, n, f.slots[n], source, burst, true)),
      Apply(Inlined(cfg), Touch(g, n), n, AddL0Effect(Inlined(cfg), n, g.slots[n], source, burst, storeOk)))
  {
    hide Simulates, AddL0Effect, Apply, EffectsMatch, Untied;
    SameShape(cfg, f, g);
    TouchSimulates(cfg, f, g, n);
    AddL0Matches(cfg, n, f.slots[n], g.slots[n], source, burst, storeOk);
    ShippedBurst(cfg, n, f.slots[n], source, burst);
    ApplySimulates(cfg, Touch(f, n), Touch(g, n), n, AddL0Effect(cfg, n, f.slots[n], source, burst, true),
      AddL0Effect(Inlined(cfg), n, g.slots[n], source, burst, storeOk));
  }

  lemma L1Simulates(cfg: Config, f: Farm, g: Farm, n: nat, source: nat)
    requires Simulates(cfg, f, g) && n < |f.slots| && |f.slots| == |g.slots| && Untied(f, n)
    ensures Simulates(cfg, Apply(cfg, Touch(f, n), n, AddL1Effect(cfg, n, f.slots[n], source)),
      Apply(Inlined(cfg), Touch(g, n), n, AddL1Effect(Inlined(cfg), n, g.slots[n], source)))
  {
    hide Simulates, AddL1Effect, Apply, EffectsMatch, Untied;
    SameShape(cfg, f, g);
    TouchSimulates(cfg, f, g, n);
    AddL1Matches(cfg, n, f.slots[n], g.slots[n], source);
    ApplySimulates(cfg, Touch(f, n), Touch(g, n), n,
      AddL1Effect(cfg, n, f.slots[n], source), AddL1Effect(Inlined(cfg), n, g.slots[n], source));
  }

  /** A step keeps the two farms together if and only if it is harmless. */
  lemma StepSimulates(cfg: Config, f: Farm, g: Farm, step: Step)
    requires cfg.sharedMemory && Simulates(cfg, f, g) && Inv(cfg, f) && Enabled(f, step) && Plain(f, step)
    requires OneBurst(f)
    ensures Simulates(cfg, After(cfg, f, step), InlineStep(Inlined(cfg), g, step)) <==> Harmless(cfg, f, step)
  {
    hide Simulates, OneBurst, AddL0Effect, AddL1Effect, Apply, Receive, Sweep, Due, Inv, Untied;
    SameShape(cfg, f, g);
    match step
    case L0Fragment(n, source, burst, storeOk) =>
      if n >= |f.slots| {
        NothingDueOutside(cfg, f, g, n);
      } else if Untied(f, n) {
        L0Simulates(cfg, f, g, n, source, burst, storeOk);
        UntiedIsHarmless(cfg, f, g, n);
      } else {
        TiedL0(cfg, f, g, n, source, burst, storeOk);
      }
    case L1Fragment(n, source) =>
      if n >= |f.slots| {
        NothingDueOutside(cfg, f, g, n);
      } else if Untied(f, n) {
        L1Simulates(cfg, f, g, n, source);
        UntiedIsHarmless(cfg, f, g, n);
      } else {
        TiedL1(cfg, f, g, n, source);
      }
    case Response(pos) => ResponseSimulates(cfg, f, g, pos);
  }

  lemma StepKeepsOneBurst(cfg: Config, f: Farm, step: Step)
    requires Inv(cfg, f) && OneBurst(f) && Enabled(f, step) && Plain(f, step)
    ensures OneBurst(After(cfg, f, step)) && After(cfg, f, step).currentBurst == f.currentBurst
  {
    hide Tagged, Play, History, StageOf, SlotOk;
    match step
    case L0Fragment(n, source, burst, storeOk) =>
      if n < |f.slots| { ShippedBurst(cfg, n, f.slots[n], source, burst); }
    case L1Fragment(n, source) =>
    case Response(pos) =>
  }

  /** The inline run over the same steps, from state g. */
  function InlineFrom(cfg: Config, g: Farm, steps: seq<Step>): Farm {
    if steps == [] then g else InlineStep(cfg, InlineFrom(cfg, g, steps[..|steps| - 1]), steps[|steps| - 1])
  }

  /** A piece of a run of the shared-memory farm, without burst change or failed store, in which every
      fragment for an event under way is harmless. */
  ghost predicate HarmlessRun(cfg: Config, steps: seq<Step>, states: seq<Farm>) {
    && |states| == |steps| + 1
    && forall i :: 0 <= i < |steps| ==>
         Enabled(states[i], steps[i]) && Plain(states[i], steps[i]) && Harmless(cfg, states[i], steps[i])
         && states[i + 1] == After(cfg, states[i], steps[i])
  }

  lemma {:induction false} RunSimulates(cfg: Config, steps: seq<Step>, states: seq<Farm>, g: Farm, t: nat)
    requires cfg.sharedMemory && HarmlessRun(cfg, steps, states) && t <= |steps|
    requires Inv(cfg, states[0]) && OneBurst(states[0]) && Simulates(cfg, states[0], g)
    ensures Inv(cfg, states[t]) && OneBurst(states[t])
    ensures Simulates(cfg, states[t], InlineFrom(Inlined(cfg), g, steps[..t]))
  {
    hide Inv, After, Simulates, OneBurst, InlineStep, Enabled, Plain, Harmless;
    if t == 0 {
      assert steps[..0] == [];
    } else {
      RunSimulates(cfg, steps, states, g, t - 1);
      assert steps[..t][..t - 1] == steps[..t - 1];
      var h := InlineFrom(Inlined(cfg), g, steps[..t - 1]);
      StepKeepsInv(cfg, states[t - 1], steps[t - 1]);
      StepKeepsOneBurst(cfg, states[t - 1], steps[t - 1]);
      StepSimulates(cfg, states[t - 1], h, steps[t - 1]);
    }
  }

  /** No response of the current burst is on its way. */
  predicate Drained(f: Farm) { forall i :: 0 <= i < |f.queue| ==> f.queue[i].event.burst != f.currentBurst }

  /** The same slots up to the mark, the same events in storage, as many L1 requests, and the same things
      done to the same events, shipping apart. */
  ghost predicate SameFarm(f: Farm, h: Farm) {
    && |f.slots| == |h.slots|
    && (forall n :: 0 <= n < |f.slots| ==> Unmarked(f.slots[n]) == Unmarked(h.slots[n]))
    && multiset(f.storage) == multiset(h.storage) && f.l1Requests == h.l1Requests
    && (forall e: Entry :: e.action != Ship ==> multiset(f.log)[e] == multiset(h.log)[e])
  }

  /** With nothing due, simulation is equality. */
  lemma DrainedIsSame(cfg: Config, f: Farm, h: Farm)
    requires Simulates(cfg, f, h) && Drained(f)
    ensures SameFarm(f, h)
  {
    hide Due, Tagged;
    SumZero(f.queue, DueRequests(cfg, f.currentBurst));
    forall x: Record ensures multiset(f.storage)[x] == multiset(h.storage)[x] {
      SumZero(f.queue, DueRecords(cfg, f.currentBurst, x));
    }
    forall e: Entry | e.action != Ship ensures multiset(f.log)[e] == multiset(h.log)[e] {
      SumZero(f.queue, DueEntries(cfg, f.currentBurst, e));
    }
    forall n | 0 <= n < |f.slots| ensures Unmarked(f.slots[n]) == Unmarked(h.slots[n]) {
      assert Untied(f, n);
    }
  }

  /** A state with all slots free, stale responses or none in the queue: the two farms can start from it. */
  lemma FreeStatesSimulate(cfg: Config, f: Farm)
    requires Drained(f) && forall n :: 0 <= n < |f.slots| ==> f.slots[n] == FREE
    ensures Simulates(cfg, f, f) && OneBurst(f)
  {
    hide Due, DisposeEffect, Tagged;
    SumZero(f.queue, DueRequests(cfg, f.currentBurst));
    forall x: Record ensures Sum(f.queue, DueRecords(cfg, f.currentBurst, x)) == 0 {
      SumZero(f.queue, DueRecords(cfg, f.currentBurst, x));
    }
    forall e: Entry ensures Sum(f.queue, DueEntries(cfg, f.currentBurst, e)) == 0 {
      SumZero(f.queue, DueEntries(cfg, f.currentBurst, e));
    }
  }

  /** The t-th state of a run is the first of a burst. */
  predicate BurstStarts(steps: seq<Step>, t: nat)
    requires t <= |steps|
  {
    t == 0 || steps[t - 1].EndOfBurst?
  }

  lemma {:induction false} SweepKeepsQueue(cfg: Config, f: Farm, order: seq<nat>)
    requires forall i :: 0 <= i < |order| ==> order[i] < |f.slots|
    ensures Sweep(cfg, f, order).queue == f.queue
  {
    hide DataOf;
    if order != [] { SweepKeepsQueue(cfg, f, order[..|order| - 1]); }
  }

  lemma SlotCount(cfg: Config, f: Farm)
    requires Inv(cfg, f)
    ensures |f.slots| == cfg.poolSize
  {
  }

  /** A burst starts with all slots free and no response of its own on its way. */
  lemma BurstStartsFree(cfg: Config, steps: seq<Step>, states: seq<Farm>, t: nat)
    requires Run(cfg, steps, states) && t <= |steps| && BurstStarts(steps, t)
    ensures Drained(states[t]) && forall n :: 0 <= n < |states[t].slots| ==> states[t].slots[n] == FREE
    ensures Inv(cfg, states[t])
  {
    hide PoolOk, Sweep;
    RunKeepsInv(cfg, steps, states, t);
    if t > 0 {
      var f := states[t - 1];
      RunKeepsInv(cfg, steps, states, t - 1);
      NothingRemains(cfg, f, steps[t - 1].order, steps[t - 1].nextBurst);
      SweepKeepsQueue(cfg, f, steps[t - 1].order);
      SlotCount(cfg, states[t]);
    }
  }

  /** In any run of the shared-memory farm, from the start of a burst on and as long as its steps are plain
      and harmless: whenever the burst's responses are drained, in whatever order they were taken, the farm
      is the inline farm after the same steps. */
  lemma DrainedEqualsInline(cfg: Config, steps: seq<Step>, states: seq<Farm>, start: nat, t: nat)
    requires cfg.sharedMemory && Run(cfg, steps, states) && start <= t <= |steps| && BurstStarts(steps, start)
    requires forall i :: start <= i < t ==> Plain(states[i], steps[i]) && Harmless(cfg, states[i], steps[i])
    requires Drained(states[t])
    ensures SameFarm(states[t], InlineFrom(Inlined(cfg), states[start], steps[start..t]))
  {
    hide Inv, After, OneBurst, InlineFrom, Plain, Harmless, Simulates, SameFarm, Drained, Enabled;
    BurstStartsFree(cfg, steps, states, start);
    FreeStatesSimulate(cfg, states[start]);
    var some, seen := steps[start..t], states[start..t + 1];
    assert forall i :: 0 <= i < |some| ==> some[i] == steps[start + i];
    assert forall i :: 0 <= i < |seen| ==> seen[i] == states[start + i];
    RunSimulates(cfg, some, seen, states[start], |some|);
    assert some[..|some|] == some;
    DrainedIsSame(cfg, states[t], InlineFrom(Inlined(cfg), states[start], some));
  }
}
