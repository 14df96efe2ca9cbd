/** What must happen: data that arrives is added, complete events go on, and none is lost on the way. Said
    over runs of the farm in which anything else may happen in between. */
module FarmProgress {
  import opened Events
  import opened Lifecycle

  /** A piece of a run without change of burst. */
  ghost predicate Follows(cfg: Config, steps: seq<Step>, states: seq<Farm>) {
    && |states| == |steps| + 1
    && forall i :: 0 <= i < |steps| ==>
         !steps[i].EndOfBurst? && Enabled(states[i], steps[i]) && states[i + 1] == After(cfg, states[i], steps[i])
  }

  lemma StepKeepsBurst(cfg: Config, f: Farm, step: Step)
    requires Enabled(f, step) && !step.EndOfBurst?
    ensures After(cfg, f, step).currentBurst == f.currentBurst
  {
  }

  lemma SlotsInv(cfg: Config, f: Farm)
    requires Inv(cfg, f)
    ensures |f.slots| == cfg.poolSize && forall n :: 0 <= n < |f.slots| ==> SlotOk(cfg, f.slots[n])
  {
    hide SlotOk, StageOf, History, Play;
  }

  lemma {:induction false} InvFollows(cfg: Config, steps: seq<Step>, states: seq<Farm>, t: nat)
    requires Follows(cfg, steps, states) && Inv(cfg, states[0]) && t <= |steps|
    ensures Inv(cfg, states[t]) && |states[t].slots| == cfg.poolSize && states[t].currentBurst == states[0].currentBurst
  {
    hide Inv, After, Enabled;
    if t > 0 {
      InvFollows(cfg, steps, states, t - 1);
      StepKeepsInv(cfg, states[t - 1], steps[t - 1]);
      StepKeepsBurst(cfg, states[t - 1], steps[t - 1]);
    }
    SlotsInv(cfg, states[t]);
  }

  /** What the log gained between two states. */
  predicate Logged(f: Farm, g: Farm, n: nat, actions: seq<Action>) {
    && |g.log| == |f.log| + |actions| && f.log <= g.log
    && forall i :: 0 <= i < |actions| ==> g.log[|f.log| + i] == Entry(n, actions[i])
  }

  // ---------- what an L1 decision leads to ----------

  /** L2 ran on the event with its data as they were: it was stored exactly if L2 is off, or accepted it without
      asking for more, and its slot was freed. */
  ghost predicate WentThroughL2(cfg: Config, f: Farm, g: Farm, n: nat, before: seq<Action>, r: Record)
    requires n < |f.slots|
  {
    && g.slots == f.slots[n := FREE] && g.l1Requests == f.l1Requests && g.queue == f.queue
    && if !cfg.l2Active || (cfg.l2Decide(r).accepted && !cfg.l2Decide(r).waits)
       then g.storage == f.storage + [r] && Logged(f, g, n, before + [RunL2(r), Store(r), FreeProcessed])
       else g.storage == f.storage && Logged(f, g, n, before + [RunL2(r), FreeProcessed])
  }

  /** The event `whole` in slot n got the trigger word: rejected with 0, otherwise kept waiting for its L1 data
      after one request, or given to L2 if none is expected. */
  ghost predicate Decides(cfg: Config, f: Farm, g: Farm, n: nat, before: seq<Action>, whole: Slot, word: nat)
    requires n < |f.slots|
  {
    if word == 0 then
      && g.slots == f.slots[n := FREE] && g.l1Requests == f.l1Requests && g.storage == f.storage && g.queue == f.queue
      && Logged(f, g, n, before + [RunL1(0), FreeRejected])
    else if cfg.l1Sources != {} then
      && g.slots == f.slots[n := whole.(l1Processed := true, l1Requested := cfg.sharedMemory)]
      && g.l1Requests == f.l1Requests + 1 && g.storage == f.storage && g.queue == f.queue
      && Logged(f, g, n, before + [RunL1(word), Request])
    else
      WentThroughL2(cfg, f, g, n, before + [RunL1(word)], Record(n, whole.burst, whole.l0, whole.l1))
  }

  lemma TaggedIs(n: nat, actions: seq<Action>)
    ensures forall i :: 0 <= i < |actions| ==> Tagged(n, actions)[i] == Entry(n, actions[i])
  {
  }

  lemma AppliedLogs(cfg: Config, f: Farm, n: nat, e: Effect)
    requires n < |f.slots|
    ensures Logged(f, Apply(cfg, f, n, e), n, e.actions)
  {
    TaggedIs(n, e.actions);
  }

  lemma L2EffectGoesThrough(cfg: Config, f: Farm, n: nat, before: seq<Action>, s: Slot)
    requires n < |f.slots| && !s.waitingNonZSuppressed
    ensures WentThroughL2(cfg, f, Apply(cfg, f, n, Then(before, L2Effect(cfg, n, s))), n, before,
      Record(n, s.burst, s.l0, s.l1))
  {
    hide Tagged;
    AppliedLogs(cfg, f, n, Then(before, L2Effect(cfg, n, s)));
    assert f.storage + [] == f.storage && f.queue + [] == f.queue;
  }

  lemma ThenThen(a: seq<Action>, b: seq<Action>, e: Effect)
    ensures Then(a, Then(b, e)) == Then(a + b, e)
  {
    assert a + (b + e.actions) == a + b + e.actions;
  }

  lemma DisposeDecides(cfg: Config, f: Farm, n: nat, before: seq<Action>, s: Slot, word: nat)
    requires n < |f.slots| && !s.waitingNonZSuppressed && !s.l1Requested
    ensures Decides(cfg, f, Apply(cfg, f, n, Then(before, DisposeEffect(cfg, n, s, word))), n, before, s, word)
  {
    hide Tagged, L2Effect, WentThroughL2;
    AppliedLogs(cfg, f, n, Then(before, DisposeEffect(cfg, n, s, word)));
    assert f.storage + [] == f.storage && f.queue + [] == f.queue;
    assert cfg.l1Sources == {} <==> |cfg.l1Sources| == 0;
    var t := s.(l1Processed := true);
    L2EffectGoesThrough(cfg, f, n, before + [RunL1(word)], t);
    ThenThen(before, [RunL1(word)], L2Effect(cfg, n, t));
  }

  // ---------- L0 data ----------

  lemma AddingChanges(s: set<nat>, x: nat)
    requires s + {x} != s
    ensures x !in s
  {
  }

  /** The expected L0 sources that sent a fragment for slot n. */
  function SentL0(cfg: Config, steps: seq<Step>, n: nat): set<nat> {
    if steps == [] then {}
    else
      var last := steps[|steps| - 1];
      SentL0(cfg, steps[..|steps| - 1], n)
      + if last.L0Fragment? && last.n == n && last.source in cfg.l0Sources then {last.source} else {}
  }

  /** The burst of the first of these fragments. */
  function FirstBurst(cfg: Config, steps: seq<Step>, n: nat): nat {
    if steps == [] then 0
    else if SentL0(cfg, steps[..|steps| - 1], n) != {} then FirstBurst(cfg, steps[..|steps| - 1], n)
    else if steps[|steps| - 1].L0Fragment? then steps[|steps| - 1].burst else 0
  }

  /** The slot of an event with these L0 data and nothing else. */
  function Collecting(burst: nat, l0: set<nat>): Slot { Slot(true, burst, l0, {}, false, false, false) }

  /** What a slot that was s holds after these steps, as long as L0 data is missing. */
  function Collected(cfg: Config, s: Slot, steps: seq<Step>, n: nat): Slot {
    if s.unfinished then Collecting(s.burst, s.l0 + SentL0(cfg, steps, n))
    else if SentL0(cfg, steps, n) != {} then Collecting(FirstBurst(cfg, steps, n), SentL0(cfg, steps, n))
    else FREE
  }

  /** Does the step concern slot n? */
  predicate Concerns(f: Farm, step: Step, n: nat) {
    match step
    case L0Fragment(m, _, _, _) => m == n
    case L1Fragment(m, _) => m == n
    case Response(pos) => pos < |f.queue| && f.queue[pos].n == n && f.queue[pos].event.burst == f.currentBurst
    case EndOfBurst(_, _) => true
  }

  lemma OtherSlotsStay(cfg: Config, f: Farm, step: Step, n: nat)
    requires Enabled(f, step) && n < |f.slots| && !Concerns(f, step, n)
    ensures After(cfg, f, step).slots[n] == f.slots[n]
  {
    hide AddL0Effect, AddL1Effect, DisposeEffect, Tagged;
  }

  /** Nothing but fragments concerns a slot that holds no shipped event. */
  lemma NoResponseDue(cfg: Config, f: Farm, step: Step, n: nat)
    requires Inv(cfg, f) && Enabled(f, step) && n < |f.slots| && StageOf(cfg, f.slots[n]) != Shipped
    ensures step.Response? ==> !Concerns(f, step, n)
  {
    hide PoolOk, StageOf;
  }

  lemma L0StepCollects(cfg: Config, f: Farm, step: Step, n: nat)
    requires Inv(cfg, f) && Enabled(f, step) && !step.EndOfBurst? && n < |f.slots|
    requires f.slots[n] == FREE || (f.slots[n].unfinished && f.slots[n].l0 != cfg.l0Sources)
    ensures var s, t := f.slots[n], After(cfg, f, step).slots[n];
      if step.L0Fragment? && step.n == n && step.source in cfg.l0Sources then
        var l0 := s.l0 + {step.source};
        l0 != cfg.l0Sources ==> t == Collecting(if s.unfinished then s.burst else step.burst, l0)
      else t == s
  {
    hide L1Effect, L2Effect, Tagged, History, Play, QueueOk;
    SlotsInv(cfg, f);
    if !Concerns(f, step, n) {
      OtherSlotsStay(cfg, f, step, n);
    } else if step.Response? {
      NoResponseDue(cfg, f, step, n);
    } else if step.L0Fragment? && step.source in cfg.l0Sources && f.slots[n].unfinished && step.source in f.slots[n].l0 {
      assert f.slots[n].l0 + {step.source} == f.slots[n].l0;
    }
  }

  lemma SentL0Next(cfg: Config, steps: seq<Step>, n: nat, t: nat)
    requires t < |steps|
    ensures SentL0(cfg, steps[..t + 1], n) == SentL0(cfg, steps[..t], n)
      + if steps[t].L0Fragment? && steps[t].n == n && steps[t].source in cfg.l0Sources then {steps[t].source} else {}
    ensures SentL0(cfg, steps[..t], n) == {} && SentL0(cfg, steps[..t + 1], n) != {} ==>
      FirstBurst(cfg, steps[..t + 1], n) == steps[t].burst
    ensures SentL0(cfg, steps[..t], n) != {} ==> FirstBurst(cfg, steps[..t + 1], n) == FirstBurst(cfg, steps[..t], n)
  {
    assert steps[..t + 1][..t] == steps[..t];
  }

  lemma {:induction false} SentL0Expected(cfg: Config, steps: seq<Step>, n: nat)
    ensures SentL0(cfg, steps, n) <= cfg.l0Sources
  {
    if steps != [] { SentL0Expected(cfg, steps[..|steps| - 1], n); }
  }

  lemma NothingSent(cfg: Config, n: nat)
    ensures SentL0(cfg, [], n) == {} && SentL1(cfg, [], n) == {}
  {
  }

  lemma CollectedNext(cfg: Config, s: Slot, steps: seq<Step>, n: nat, t: nat)
    requires t < |steps|
    ensures var c, d := Collected(cfg, s, steps[..t], n), Collected(cfg, s, steps[..t + 1], n);
      if steps[t].L0Fragment? && steps[t].n == n && steps[t].source in cfg.l0Sources then
        d == Collecting(if c.unfinished then c.burst else steps[t].burst, c.l0 + {steps[t].source})
      else d == c
  {
    hide SentL0, FirstBurst;
    SentL0Next(cfg, steps, n, t);
    var a := SentL0(cfg, steps[..t], n);
    if steps[t].L0Fragment? {
      assert s.l0 + (a + {steps[t].source}) == s.l0 + a + {steps[t].source};
      assert a == {} ==> a + {steps[t].source} == {steps[t].source};
    }
  }

  /** While L0 data is missing, the slot holds exactly what was sent for it, whatever happens elsewhere,
      whatever comes twice or unexpected. */
  lemma {:induction false} L0DataGathers(cfg: Config, steps: seq<Step>, states: seq<Farm>, n: nat, t: nat)
    requires Follows(cfg, steps, states) && Inv(cfg, states[0]) && n < cfg.poolSize == |states[0].slots| && t <= |steps|
    requires states[0].slots[n] == FREE || StageOf(cfg, states[0].slots[n]) == Building
    requires states[0].slots[n].l0 + SentL0(cfg, steps[..t], n) != cfg.l0Sources
    ensures |states[t].slots| == cfg.poolSize
    ensures states[t].slots[n] == Collected(cfg, states[0].slots[n], steps[..t], n)
  {
    hide Inv, After, Enabled, SentL0, FirstBurst;
    var s := states[0].slots[n];
    InvFollows(cfg, steps, states, t);
    SlotsInv(cfg, states[0]);
    if t == 0 {
      NothingSent(cfg, n);
      assert steps[..0] == [] && s.l0 + {} == s.l0;
    } else {
      SentL0Next(cfg, steps, n, t - 1);
      SentL0Expected(cfg, steps[..t], n);
      L0DataGathers(cfg, steps, states, n, t - 1);
      InvFollows(cfg, steps, states, t - 1);
      L0StepCollects(cfg, states[t - 1], steps[t - 1], n);
      CollectedNext(cfg, s, steps, n, t - 1);
    }
  }

  /** The actions that complete the L0 data. */
  function Completing(s: Slot): seq<Action> { (if s.unfinished then [] else [Fill]) + [AddL0, Complete] }

  lemma TouchLogs(f: Farm, g: Farm, n: nat, actions: seq<Action>)
    requires Logged(Touch(f, n), g, n, actions)
    ensures Logged(f, g, n, actions)
  {
  }

  lemma TouchDecides(cfg: Config, f: Farm, g: Farm, n: nat, before: seq<Action>, whole: Slot, word: nat)
    requires n < |f.slots| && Decides(cfg, Touch(f, n), g, n, before, whole, word)
    ensures Decides(cfg, f, g, n, before, whole, word)
  {
    hide Logged;
    assert forall actions :: Logged(Touch(f, n), g, n, actions) ==> Logged(f, g, n, actions) by {
      forall actions | Logged(Touch(f, n), g, n, actions) ensures Logged(f, g, n, actions) {
        TouchLogs(f, g, n, actions);
      }
    }
  }

  /** One step, from a slot that lacks exactly the source it brings. */
  lemma LastSourceCompletes(cfg: Config, f: Farm, step: Step, n: nat)
    requires Inv(cfg, f) && Enabled(f, step) && step.L0Fragment? && step.n == n < |f.slots|
    requires f.slots[n] == FREE || (f.slots[n].unfinished && f.slots[n].l0 != cfg.l0Sources)
    requires step.source in cfg.l0Sources && f.slots[n].l0 + {step.source} == cfg.l0Sources != f.slots[n].l0
    ensures var g, s := After(cfg, f, step), f.slots[n];
      var whole := Collecting(if s.unfinished then s.burst else step.burst, cfg.l0Sources);
      var word := cfg.l1Decide(Record(n, whole.burst, cfg.l0Sources, {}));
      && (!cfg.sharedMemory ==> Decides(cfg, f, g, n, Completing(s), whole, word))
      && (cfg.sharedMemory && !step.storeOk ==> Decides(cfg, f, g, n, Completing(s), whole, 0x20))
      && (cfg.sharedMemory && step.storeOk ==>
            && g.slots == f.slots[n := whole] && g.queue == f.queue + [Message(n, whole, word)]
            && g.storage == f.storage && g.l1Requests == f.l1Requests && Logged(f, g, n, Completing(s) + [Ship]))
  {
    hide DisposeEffect, Tagged, Decides, History, Play, QueueOk, Logged;
    SlotsInv(cfg, f);
    var s := f.slots[n];
    AddingChanges(s.l0, step.source);
    var whole := Collecting(if s.unfinished then s.burst else step.burst, cfg.l0Sources);
    assert WithL0(s, step.source, step.burst) == whole;
    assert AddingL0(s) + [Complete] == Completing(s);
    var e := AddL0Effect(cfg, n, s, step.source, step.burst, step.storeOk);
    assert e == Then(Completing(s), L1Effect(cfg, n, whole, step.storeOk));
    AppliedLogs(cfg, Touch(f, n), n, e);
    if !cfg.sharedMemory || !step.storeOk {
      var word := if cfg.sharedMemory then L1_BYPASS_WORD else cfg.l1Decide(DataOf(n, whole));
      DisposeDecides(cfg, Touch(f, n), n, Completing(s), whole, word);
      TouchDecides(cfg, f, After(cfg, f, step), n, Completing(s), whole, word);
    } else {
      assert f.storage + [] == f.storage;
      TouchLogs(f, After(cfg, f, step), n, e.actions);
    }
  }

  /** The fragment that completes the L0 data. In the local build the L1 trigger decides at once. With the
      shared memory the event is shipped, as it is, to be decided on the same data; if it does not fit there, it
      gets the word 0x20. */
  lemma L0DataCompletes(cfg: Config, steps: seq<Step>, states: seq<Farm>, n: nat, t: nat)
    requires Follows(cfg, steps, states) && Inv(cfg, states[0]) && n < cfg.poolSize == |states[0].slots| && t < |steps|
    requires states[0].slots[n] == FREE || StageOf(cfg, states[0].slots[n]) == Building
    requires states[0].slots[n].l0 + SentL0(cfg, steps[..t], n) != cfg.l0Sources
    requires states[0].slots[n].l0 + SentL0(cfg, steps[..t + 1], n) == cfg.l0Sources
    ensures steps[t].L0Fragment? && |states[t].slots| == cfg.poolSize
    ensures var f, g := states[t], states[t + 1];
      var whole := Collected(cfg, states[0].slots[n], steps[..t + 1], n);
      var word := cfg.l1Decide(Record(n, whole.burst, cfg.l0Sources, {}));
      var before := Completing(f.slots[n]);
      && whole == Collecting(whole.burst, cfg.l0Sources)
      && (!cfg.sharedMemory ==> Decides(cfg, f, g, n, before, whole, word))
      && (cfg.sharedMemory && !steps[t].storeOk ==> Decides(cfg, f, g, n, before, whole, 0x20))
      && (cfg.sharedMemory && steps[t].storeOk ==>
            && g.slots == f.slots[n := whole] && g.queue == f.queue + [Message(n, whole, word)]
            && g.storage == f.storage && g.l1Requests == f.l1Requests && Logged(f, g, n, before + [Ship]))
  {
    hide Inv, After, Enabled, SentL0, FirstBurst, Decides;
    var s := states[0].slots[n];
    SlotsInv(cfg, states[0]);
    L0DataGathers(cfg, steps, states, n, t);
    InvFollows(cfg, steps, states, t);
    SentL0Next(cfg, steps, n, t);
    CollectedNext(cfg, s, steps, n, t);
    LastSourceCompletes(cfg, states[t], steps[t], n);
  }

  lemma LoggedHolds(f: Farm, g: Farm, n: nat, actions: seq<Action>)
    ensures Logged(f, g, n, actions) ==>
      |f.log| <= |g.log| && forall a :: Entry(n, a) in g.log[|f.log|..] <==> a in actions
  {
    if Logged(f, g, n, actions) {
      var more := g.log[|f.log|..];
      forall a ensures Entry(n, a) in more <==> a in actions {
        assert forall i :: 0 <= i < |actions| ==> more[i] == Entry(n, actions[i]);
        if a in actions {
          var i :| 0 <= i < |actions| && actions[i] == a;
          assert more[i] == Entry(n, a);
        }
      }
    }
  }

  lemma BypassOutcome(cfg: Config, f: Farm, g: Farm, n: nat, before: seq<Action>, whole: Slot)
    requires n < |f.slots| && cfg.sharedMemory && Decides(cfg, f, g, n, before, whole, 0x20) && FreeRejected !in before
    ensures |f.log| <= |g.log|
    ensures Entry(n, FreeRejected) !in g.log[|f.log|..] && Entry(n, RunL1(0x20)) in g.log[|f.log|..]
    ensures if cfg.l1Sources != {} then
        && Entry(n, Request) in g.log[|f.log|..] && g.l1Requests == f.l1Requests + 1
        && g.slots == f.slots[n := whole.(l1Processed := true, l1Requested := true)]
      else
        && Entry(n, RunL2(Record(n, whole.burst, whole.l0, whole.l1))) in g.log[|f.log|..]
        && g.slots == f.slots[n := FREE]
  {
    hide Logged;
    var r := Record(n, whole.burst, whole.l0, whole.l1);
    LoggedHolds(f, g, n, before + [RunL1(0x20), Request]);
    LoggedHolds(f, g, n, before + [RunL1(0x20)] + [RunL2(r), Store(r), FreeProcessed]);
    LoggedHolds(f, g, n, before + [RunL1(0x20)] + [RunL2(r), FreeProcessed]);
  }

  /** An event that is complete at L0 and does not fit into the shared memory gets the word 0x20 and is never
      rejected: it is marked and waits for its requested L1 data, or goes through L2 if none is expected. */
  lemma BypassNeverRejects(cfg: Config, steps: seq<Step>, states: seq<Farm>, n: nat, t: nat)
    requires Follows(cfg, steps, states) && Inv(cfg, states[0]) && n < cfg.poolSize == |states[0].slots| && t < |steps|
    requires states[0].slots[n] == FREE || StageOf(cfg, states[0].slots[n]) == Building
    requires states[0].slots[n].l0 + SentL0(cfg, steps[..t], n) != cfg.l0Sources
    requires states[0].slots[n].l0 + SentL0(cfg, steps[..t + 1], n) == cfg.l0Sources
    requires cfg.sharedMemory && steps[t].L0Fragment? && !steps[t].storeOk
    ensures var f, g := states[t], states[t + 1];
      && n < |f.slots| && |f.log| <= |g.log|
      && Entry(n, FreeRejected) !in g.log[|f.log|..] && Entry(n, RunL1(0x20)) in g.log[|f.log|..]
      && var burst := Collected(cfg, states[0].slots[n], steps[..t + 1], n).burst;
      if cfg.l1Sources != {} then
        && Entry(n, Request) in g.log[|f.log|..] && g.l1Requests == f.l1Requests + 1
        && g.slots == f.slots[n := Slot(true, burst, cfg.l0Sources, {}, true, true, false)]
      else
        && Entry(n, RunL2(Record(n, burst, cfg.l0Sources, {}))) in g.log[|f.log|..]
        && g.slots == f.slots[n := FREE]
  {
    hide Inv, After, Enabled, SentL0, FirstBurst, Decides;
    L0DataCompletes(cfg, steps, states, n, t);
    BypassOutcome(cfg, states[t], states[t + 1], n, Completing(states[t].slots[n]),
      Collected(cfg, states[0].slots[n], steps[..t + 1], n));
  }

  // ---------- shipped events ----------

  /** The event in slot n was shipped, and this is the response on its way. */
  predicate Awaits(f: Farm, n: nat, event: Slot, word: nat) {
    n < |f.slots| && f.slots[n] == event && event.burst == f.currentBurst && Message(n, event, word) in f.queue
  }

  lemma StillAwaits(cfg: Config, f: Farm, step: Step, n: nat, event: Slot, word: nat)
    requires Inv(cfg, f) && Enabled(f, step) && !step.EndOfBurst? && Awaits(f, n, event, word)
    requires step.Response? ==> !Concerns(f, step, n)
    ensures Awaits(After(cfg, f, step), n, event, word)
  {
    hide DisposeEffect, L1Effect, L2Effect, Tagged, History, Play;
    SlotsInv(cfg, f);
    StepKeepsBurst(cfg, f, step);
    var m := Message(n, event, word);
    var i :| 0 <= i < |f.queue| && f.queue[i] == m;
    assert StageOf(cfg, event) == Shipped;
    if !Concerns(f, step, n) {
      OtherSlotsStay(cfg, f, step, n);
    }
    if step.Response? {
      assert i != step.pos;
      var rest := f.queue[..step.pos] + f.queue[step.pos + 1..];
      assert rest[if i < step.pos then i else i - 1] == m;
    } else {
      assert After(cfg, f, step).queue[i] == m;
    }
  }

  /** Until its response is taken, a shipped event stays as it is, whatever is sent for it. */
  lemma {:induction false} ShippedUntilAnswered(
      cfg: Config, steps: seq<Step>, states: seq<Farm>, n: nat, event: Slot, word: nat, t: nat)
    requires Follows(cfg, steps, states) && Inv(cfg, states[0]) && Awaits(states[0], n, event, word) && t <= |steps|
    requires forall i :: 0 <= i < t && steps[i].Response? ==> !Concerns(states[i], steps[i], n)
    ensures Awaits(states[t], n, event, word)
  {
    hide Inv, After, Enabled, Awaits, Concerns;
    if t > 0 {
      ShippedUntilAnswered(cfg, steps, states, n, event, word, t - 1);
      InvFollows(cfg, steps, states, t - 1);
      StillAwaits(cfg, states[t - 1], steps[t - 1], n, event, word);
    }
  }

  lemma ThenNothing(e: Effect)
    ensures Then([], e) == e
  {
    assert [] + e.actions == e.actions;
  }

  /** Taking the response decides on the event as it was shipped, with the word found for it. */
  lemma ResponseDecides(cfg: Config, f: Farm, pos: nat)
    requires Inv(cfg, f) && pos < |f.queue| && f.queue[pos].event.burst == f.currentBurst
    ensures var m, g := f.queue[pos], f.(queue := f.queue[..pos] + f.queue[pos + 1..]);
      m.n < |f.slots| && f.slots[m.n] == m.event
      && Decides(cfg, g, After(cfg, f, Response(pos)), m.n, [], m.event, m.word)
  {
    hide DisposeEffect, Tagged, History, Play, Decides;
    SlotsInv(cfg, f);
    var m, g := f.queue[pos], f.(queue := f.queue[..pos] + f.queue[pos + 1..]);
    DisposeDecides(cfg, Touch(g, m.n), m.n, [], m.event, m.word);
    ThenNothing(DisposeEffect(cfg, m.n, m.event, m.word));
    TouchDecides(cfg, g, After(cfg, f, Response(pos)), m.n, [], m.event, m.word);
  }

  // ---------- L1 data ----------

  /** The expected L1 sources that sent data for slot n. */
  function SentL1(cfg: Config, steps: seq<Step>, n: nat): set<nat> {
    if steps == [] then {}
    else
      var last := steps[|steps| - 1];
      SentL1(cfg, steps[..|steps| - 1], n)
      + if last.L1Fragment? && last.n == n && last.source in cfg.l1Sources then {last.source} else {}
  }

  lemma SentL1Next(cfg: Config, steps: seq<Step>, n: nat, t: nat)
    requires t < |steps|
    ensures SentL1(cfg, steps[..t + 1], n) == SentL1(cfg, steps[..t], n)
      + if steps[t].L1Fragment? && steps[t].n == n && steps[t].source in cfg.l1Sources then {steps[t].source} else {}
  {
    assert steps[..t + 1][..t] == steps[..t];
  }

  lemma {:induction false} SentL1Expected(cfg: Config, steps: seq<Step>, n: nat)
    ensures SentL1(cfg, steps, n) <= cfg.l1Sources
  {
    if steps != [] { SentL1Expected(cfg, steps[..|steps| - 1], n); }
  }

  lemma L1StepCollects(cfg: Config, f: Farm, step: Step, n: nat)
    requires Inv(cfg, f) && Enabled(f, step) && !step.EndOfBurst? && n < |f.slots|
    requires StageOf(cfg, f.slots[n]) == Waiting
    ensures var s, t := f.slots[n], After(cfg, f, step).slots[n];
      if step.L1Fragment? && step.n == n && step.source in cfg.l1Sources then
        s.l1 + {step.source} != cfg.l1Sources ==> t == s.(l1 := s.l1 + {step.source})
      else t == s
  {
    hide L1Effect, L2Effect, Tagged, History, Play, QueueOk;
    SlotsInv(cfg, f);
    if !Concerns(f, step, n) {
      OtherSlotsStay(cfg, f, step, n);
    } else if step.Response? {
      NoResponseDue(cfg, f, step, n);
    } else if step.L1Fragment? && step.source in f.slots[n].l1 {
      assert f.slots[n].l1 + {step.source} == f.slots[n].l1;
    }
  }

  /** While L1 data is missing, an event past L1 holds exactly what was sent for it, and nothing else of it
      changes. */
  lemma {:induction false} L1DataGathers(cfg: Config, steps: seq<Step>, states: seq<Farm>, n: nat, t: nat)
    requires Follows(cfg, steps, states) && Inv(cfg, states[0]) && n < cfg.poolSize == |states[0].slots| && t <= |steps|
    requires StageOf(cfg, states[0].slots[n]) == Waiting
    requires states[0].slots[n].l1 + SentL1(cfg, steps[..t], n) != cfg.l1Sources
    ensures |states[t].slots| == cfg.poolSize
    ensures var s := states[0].slots[n]; states[t].slots[n] == s.(l1 := s.l1 + SentL1(cfg, steps[..t], n))
  {
    hide Inv, After, Enabled, SentL1;
    var s := states[0].slots[n];
    InvFollows(cfg, steps, states, t);
    SlotsInv(cfg, states[0]);
    if t == 0 {
      NothingSent(cfg, n);
      assert steps[..0] == [] && s.l1 + {} == s.l1;
    } else {
      SentL1Next(cfg, steps, n, t - 1);
      SentL1Expected(cfg, steps[..t], n);
      L1DataGathers(cfg, steps, states, n, t - 1);
      InvFollows(cfg, steps, states, t - 1);
      L1StepCollects(cfg, states[t - 1], steps[t - 1], n);
      var a := SentL1(cfg, steps[..t - 1], n);
      assert steps[t - 1].L1Fragment? ==> s.l1 + (a + {steps[t - 1].source}) == s.l1 + a + {steps[t - 1].source};
      assert s.l1 + (a + {}) == s.l1 + a;
    }
  }

  lemma TouchThrough(cfg: Config, f: Farm, g: Farm, n: nat, before: seq<Action>, r: Record)
    requires n < |f.slots| && WentThroughL2(cfg, Touch(f, n), g, n, before, r)
    ensures WentThroughL2(cfg, f, g, n, before, r)
  {
    hide Logged;
    forall actions | Logged(Touch(f, n), g, n, actions) ensures Logged(f, g, n, actions) { TouchLogs(f, g, n, actions); }
  }

  lemma LastL1Completes(cfg: Config, f: Farm, step: Step, n: nat)
    requires Inv(cfg, f) && Enabled(f, step) && step.L1Fragment? && step.n == n < |f.slots|
    requires StageOf(cfg, f.slots[n]) == Waiting
    requires step.source in cfg.l1Sources && f.slots[n].l1 + {step.source} == cfg.l1Sources != f.slots[n].l1
    ensures WentThroughL2(cfg, f, After(cfg, f, step), n, [AddL1],
      Record(n, f.slots[n].burst, cfg.l0Sources, cfg.l1Sources))
  {
    hide L2Effect, Tagged, History, Play, QueueOk, WentThroughL2;
    SlotsInv(cfg, f);
    var s := f.slots[n];
    AddingChanges(s.l1, step.source);
    var t := s.(l1 := cfg.l1Sources);
    L2EffectGoesThrough(cfg, Touch(f, n), n, [AddL1], t);
    TouchThrough(cfg, f, After(cfg, f, step), n, [AddL1], Record(n, s.burst, cfg.l0Sources, cfg.l1Sources));
  }

  /** The data that completes an event past L1 takes it through L2 with all of its data. */
  lemma L1DataReachesL2(cfg: Config, steps: seq<Step>, states: seq<Farm>, n: nat, t: nat)
    requires Follows(cfg, steps, states) && Inv(cfg, states[0]) && n < cfg.poolSize == |states[0].slots| && t < |steps|
    requires StageOf(cfg, states[0].slots[n]) == Waiting
    requires states[0].slots[n].l1 + SentL1(cfg, steps[..t], n) != cfg.l1Sources
    requires states[0].slots[n].l1 + SentL1(cfg, steps[..t + 1], n) == cfg.l1Sources
    ensures |states[t].slots| == cfg.poolSize
    ensures WentThroughL2(cfg, states[t], states[t + 1], n, [AddL1],
      Record(n, states[0].slots[n].burst, cfg.l0Sources, cfg.l1Sources))
  {
    hide Inv, After, Enabled, SentL1, WentThroughL2;
    L1DataGathers(cfg, steps, states, n, t);
    InvFollows(cfg, steps, states, t);
    SentL1Next(cfg, steps, n, t);
    var s, a := states[0].slots[n], SentL1(cfg, steps[..t], n);
    assert s.l1 + (a + {}) == s.l1 + a;
    assert s.l1 + (a + {steps[t].source}) == s.l1 + a + {steps[t].source};
    LastL1Completes(cfg, states[t], steps[t], n);
  }

  // ---------- from the first fragment to L2 ----------

  /** In the local build: an event whose L0 data is all sent by step t0, which the L1 trigger then accepts,
      and whose L1 data is all sent after that by step t1, goes through L2 at that step, with all of its data. */
  lemma AcceptedEventReachesL2(cfg: Config, steps: seq<Step>, states: seq<Farm>, n: nat, t0: nat, t1: nat)
    requires Follows(cfg, steps, states) && Inv(cfg, states[0]) && n < cfg.poolSize == |states[0].slots|
    requires t0 < t1 < |steps| && !cfg.sharedMemory && cfg.l1Sources != {} && states[0].slots[n] == FREE
    requires SentL0(cfg, steps[..t0], n) != cfg.l0Sources == SentL0(cfg, steps[..t0 + 1], n)
    requires cfg.l1Decide(Record(n, FirstBurst(cfg, steps[..t0 + 1], n), cfg.l0Sources, {})) != 0
    requires SentL1(cfg, steps[t0 + 1..t1], n) != cfg.l1Sources == SentL1(cfg, steps[t0 + 1..t1 + 1], n)
    ensures |states[t1].slots| == cfg.poolSize
    ensures WentThroughL2(cfg, states[t1], states[t1 + 1], n, [AddL1],
      Record(n, FirstBurst(cfg, steps[..t0 + 1], n), cfg.l0Sources, cfg.l1Sources))
  {
    hide Inv, After, Enabled, SentL0, SentL1, FirstBurst, WentThroughL2, Logged;
    assert forall a: set<nat> :: {} + a == a;
    L0DataCompletes(cfg, steps, states, n, t0);
    InvFollows(cfg, steps, states, t0 + 1);
    var tail, rest := steps[t0 + 1..], states[t0 + 1..];
    assert forall i :: 0 <= i < |tail| ==> tail[i] == steps[t0 + 1 + i];
    assert forall i :: 0 <= i < |rest| ==> rest[i] == states[t0 + 1 + i];
    assert tail[..t1 - t0 - 1] == steps[t0 + 1..t1] && tail[..t1 - t0] == steps[t0 + 1..t1 + 1];
    SlotsInv(cfg, states[t0 + 1]);
    L1DataReachesL2(cfg, tail, rest, n, t1 - t0 - 1);
  }
}
