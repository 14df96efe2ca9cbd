/** Concrete runs of the farm in which things do not go as one might expect. */
module FarmExamples {
  import opened Events
  import opened Lifecycle
  import opened LifecycleResults
  import opened EndOfBurstSweep
  import opened SharedMemoryRefinement

  /** One slot, two L0 sources; all decisions are constant. */
  function OneSlot(l1Sources: set<nat>, sharedMemory: bool, l2Active: bool, word: nat, l2: L2Decision): Config {
    Config(1, {0, 1}, l1Sources, l2Active, sharedMemory, _ => word, _ => l2, _ => false)
  }

  const NO := L2Decision(false, false)

  function First(storeOk: bool): Step { L0Fragment(0, 0, 0, storeOk) }
  function Second(storeOk: bool): Step { L0Fragment(0, 1, 0, storeOk) }

  const HALF := Slot(true, 0, {0}, {}, false, false, false)
  const WHOLE := Slot(true, 0, {0, 1}, {}, false, false, false)

  /** The first fragment opens the slot. */
  lemma AfterFirst(cfg: Config, f: Farm)
    requires cfg.l0Sources == {0, 1} && f.slots == [FREE]
    ensures After(cfg, f, First(true)) == f.(slots := [HALF], log := f.log + [Entry(0, Fill), Entry(0, AddL0)])
  {
    var g := After(cfg, f, First(true));
    assert 1 in cfg.l0Sources && {0} != cfg.l0Sources;
    assert WithL0(FREE, 0, 0) == HALF;
    assert g.log == f.log + [Entry(0, Fill), Entry(0, AddL0)];
    assert f.storage + [] == f.storage && f.queue + [] == f.queue;
  }

  /** The second completes the event. */
  lemma AfterSecond(cfg: Config, f: Farm)
    requires cfg.l0Sources == {0, 1} && f.slots == [HALF]
    ensures After(cfg, f, Second(true))
      == Apply(cfg, f, 0, Then([AddL0, Complete], L1Effect(cfg, 0, WHOLE, true)))
  {
    assert WithL0(HALF, 1, 0) == WHOLE;
  }

  /** The run in which both fragments arrive. */
  function Built(cfg: Config): Farm {
    After(cfg, After(cfg, Initial(cfg), First(true)), Second(true))
  }

  lemma BuiltIsRun(cfg: Config) returns (steps: seq<Step>, states: seq<Farm>)
    requires cfg.l0Sources == {0, 1} && cfg.poolSize == 1
    ensures steps == [First(true), Second(true)] && Run(cfg, steps, states) && |states| == 3 && states[2] == Built(cfg)
    ensures Built(cfg) == Apply(cfg, states[1], 0, Then([AddL0, Complete], L1Effect(cfg, 0, WHOLE, true)))
    ensures states[1].slots == [HALF] && states[1].queue == [] && states[1].storage == [] && states[1].currentBurst == 0
  {
    var f := Initial(cfg);
    assert f.slots == [FREE];
    AfterFirst(cfg, f);
    AfterSecond(cfg, After(cfg, f, First(true)));
    steps, states := [First(true), Second(true)], [f, After(cfg, f, First(true)), Built(cfg)];
  }

  // ---------- shared memory ----------

  /** The run of the duplicate: both fragments, the first of them again, the response. */
  const DUPLICATE := [First(true), Second(true), First(true), Response(0)]

  /** The completed event is shipped, the duplicate dropped, the response frees the slot. */
  lemma ShippedThenRejected(cfg: Config, f: Farm)
    requires cfg == OneSlot({}, true, false, 0, NO)
    requires f.slots == [HALF] && f.queue == [] && f.currentBurst == 0
    ensures var f2 := Apply(cfg, f, 0, Then([AddL0, Complete], L1Effect(cfg, 0, WHOLE, true)));
      && f2.slots == [WHOLE] && f2.queue == [Message(0, WHOLE, 0)] && f2.currentBurst == 0
      && var f3 := After(cfg, f2, First(true));
      && f3.slots == [WHOLE] && f3.queue == [Message(0, WHOLE, 0)] && f3.currentBurst == 0
      && var f4 := After(cfg, f3, Response(0));
      f4.slots == [FREE] && f4.queue == []
    ensures Due(cfg, Message(0, WHOLE, 0)).slot == FREE
  {
    assert 0 in WHOLE.l0;
    assert AddL0Effect(cfg, 0, WHOLE, 0, 0, true) == Nothing(WHOLE);
  }

  lemma InlineRunOfDuplicate(cfg: Config, f: Farm, steps: seq<Step>)
    requires cfg == OneSlot({}, false, false, 0, NO) && f == Initial(cfg)
    requires steps == DUPLICATE
    ensures InlineFrom(cfg, f, steps).slots == [HALF]
  {
    var g1 := After(cfg, f, First(true));
    var g2 := After(cfg, g1, Second(true));
    var g3 := After(cfg, g2, First(true));
    assert f.slots == [FREE];
    AfterFirst(cfg, f);
    AfterSecond(cfg, g1);
    assert g2.slots == [FREE];
    AfterFirst(cfg, g2);
    assert steps[..4] == steps && steps[..4][..3] == steps[..3] && steps[..3][..2] == steps[..2];
    assert steps[..2][..1] == steps[..1] && steps[..1][..0] == [];
    assert InlineFrom(cfg, f, steps[..0]) == f;
    assert InlineFrom(cfg, f, steps[..1]) == g1;
    assert InlineFrom(cfg, f, steps[..2]) == g2;
    assert InlineFrom(cfg, f, steps[..3]) == g3;
    assert InlineFrom(cfg, f, steps) == g3;
  }

  /** A duplicate L0 fragment for a shipped event that L1 will reject. The shared-memory farm drops it;
      the inline farm has freed the slot and fills it anew. With the response taken and the queue empty
      the two farms hold different events. */
  lemma DuplicatePartsTheFarms() returns (cfg: Config, states: seq<Farm>)
    ensures cfg.sharedMemory && Run(cfg, DUPLICATE, states)
    ensures forall i :: 0 <= i < 4 ==> Plain(states[i], DUPLICATE[i])
    ensures Harmless(cfg, states[0], DUPLICATE[0]) && Harmless(cfg, states[1], DUPLICATE[1])
    ensures !Harmless(cfg, states[2], DUPLICATE[2])
    ensures states[4].queue == [] && states[4].slots == [FREE]
    ensures InlineFrom(Inlined(cfg), states[0], DUPLICATE).slots == [HALF]
  {
    hide L1Effect, L2Effect, InlineFrom;
    cfg := OneSlot({}, true, false, 0, NO);
    var _, built := BuiltIsRun(cfg);
    var f2 := Built(cfg);
    ShippedThenRejected(cfg, built[1]);
    var f3 := After(cfg, f2, First(true));
    var f4 := After(cfg, f3, Response(0));
    states := [Initial(cfg), built[1], f2, f3, f4];
    InlineRunOfDuplicate(Inlined(cfg), Initial(cfg), DUPLICATE);
  }

  // ---------- the figure of events incomplete at L0 ----------

  /** One event, complete at L0: requested in the local build, shipped with the shared memory. In both
      the sweep would report one event as incomplete at L0, and there is none. */
  lemma CompleteEventReportedIncomplete(sharedMemory: bool)
      returns (cfg: Config, steps: seq<Step>, states: seq<Farm>)
    ensures cfg.sharedMemory == sharedMemory && Run(cfg, steps, states) && |steps| == 2
    ensures |Unfinished(states[2])| - |UnfinishedRequested(states[2])| == 1
    ensures IncompleteAtL0(cfg, states[2]) == {}
  {
    cfg := OneSlot({5}, sharedMemory, false, 1, NO);
    steps, states := BuiltIsRun(cfg);
    assert |cfg.l1Sources| == |{5}| == 1;
    var s := states[2].slots[0];
    assert s.unfinished && s.l0 == {0, 1} && !s.l1Requested;
    assert Unfinished(states[2]) == {0};
    assert UnfinishedRequested(states[2]) == {};
  }

  // ---------- L2 asks for more data ----------

  /** The L2 algorithms accept an event and ask for non-zero-suppressed data: the event is freed and
      not stored. */
  lemma AskingForMoreLosesTheEvent() returns (cfg: Config, steps: seq<Step>, states: seq<Farm>)
    ensures Run(cfg, steps, states) && |steps| == 2
    ensures var r := DataOf(0, WHOLE);
      && cfg.l2Decide(r).accepted && cfg.l2Decide(r).waits && Entry(0, RunL2(r)) in states[2].log
    ensures states[2].slots == [FREE] && states[2].storage == []
  {
    cfg := OneSlot({}, false, true, 1, L2Decision(true, true));
    steps, states := BuiltIsRun(cfg);
    var t := WHOLE.(l1Processed := true);
    var e := Then([AddL0, Complete], L1Effect(cfg, 0, WHOLE, true));
    assert DataOf(0, t) == DataOf(0, WHOLE);
    assert e.actions == [AddL0, Complete, RunL1(1), RunL2(DataOf(0, WHOLE)), FreeProcessed];
    assert states[2].log[|states[1].log| + 3] == Entry(0, RunL2(DataOf(0, WHOLE)));
  }
}
