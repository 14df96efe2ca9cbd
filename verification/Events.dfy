/** Event building as steps on the slots of the event pool. What one call does to its event is an
    `Effect` on that slot alone; a step applies it and records the actions in a log. */
module Events {

  /** A slot of the pool. `l0` and `l1` are the sources whose fragments have been added. */
  datatype Slot = Slot(
    unfinished: bool, burst: nat, l0: set<nat>, l1: set<nat>,
    l1Processed: bool, l1Requested: bool, waitingNonZSuppressed: bool)

  const FREE := Slot(false, 0, {}, {}, false, false, false)

  /** The data of an event: what trigger algorithms decide on and what storage receives. */
  datatype Record = Record(number: nat, burst: nat, l0: set<nat>, l1: set<nat>)

  datatype L2Decision = L2Decision(accepted: bool, waits: bool)

  /** Trigger algorithms and event properties are arbitrary functions of the event's data. */
  datatype Config = Config(
    poolSize: nat, l0Sources: set<nat>, l1Sources: set<nat>, l2Active: bool, sharedMemory: bool,
    l1Decide: Record -> nat, l2Decide: Record -> L2Decision, isLast: Record -> bool)

  const L1_BYPASS_WORD := 0x20  // given to events that did not fit into the shared memory

  /** What is done to an event, in order. */
  datatype Action =
    | Fill | AddL0 | Complete | Ship
    | RunL1(word: nat) | Request | AddL1 | RunL2(event: Record) | Store(event: Record)
    | FreeRejected | FreeProcessed | FreeSwept(event: Record, complete: bool)

  datatype Effect = Effect(slot: Slot, actions: seq<Action>, stored: seq<Record>, requests: nat, shipped: bool)

  function DataOf(n: nat, s: Slot): Record { Record(n, s.burst, s.l0, s.l1) }

  function Nothing(s: Slot): Effect { Effect(s, [], [], 0, false) }

  /** First some actions on the way to `s`, then the effect `e`. */
  function Then(actions: seq<Action>, e: Effect): Effect { e.(actions := actions + e.actions) }

  // ---------- the calls ----------

  /** The event after the L2 algorithms have run on it: they may ask for non-zero-suppressed data. */
  function Computed(cfg: Config, n: nat, s: Slot): Slot {
    s.(waitingNonZSuppressed := cfg.l2Decide(DataOf(n, s)).waits)
  }

  /** `L2Builder::processL2`. Whatever the outcome, the slot is freed. */
  function L2Effect(cfg: Config, n: nat, s: Slot): Effect {
    var r := DataOf(n, s);
    var stored := Effect(FREE, [RunL2(r), Store(r), FreeProcessed], [r], 0, false);
    var dropped := Effect(FREE, [RunL2(r), FreeProcessed], [], 0, false);
    if !cfg.l2Active then stored
    else if !s.waitingNonZSuppressed then
      var t := Computed(cfg, n, s);
      if !t.waitingNonZSuppressed && cfg.l2Decide(r).accepted then stored else dropped
    else dropped
  }

  /** What follows an L1 trigger word: request the L1 data, go on to L2 if none is expected, or free.
      Only the shared-memory variant marks the event as requested. */
  function DisposeEffect(cfg: Config, n: nat, s: Slot, word: nat): Effect {
    var t := s.(l1Processed := true);
    if word != 0 then
      if |cfg.l1Sources| != 0 then
        Effect(t.(l1Requested := cfg.sharedMemory || t.l1Requested), [RunL1(word), Request], [], 1, false)
      else Then([RunL1(word)], L2Effect(cfg, n, t))
    else Effect(FREE, [RunL1(word), FreeRejected], [], 0, false)
  }

  /** `L1Builder::processL1`: local, or through the shared memory if the event fits there. */
  function L1Effect(cfg: Config, n: nat, s: Slot, storeOk: bool): Effect {
    if cfg.sharedMemory then
      if storeOk then Effect(s, [Ship], [], 0, true) else DisposeEffect(cfg, n, s, L1_BYPASS_WORD)
    else DisposeEffect(cfg, n, s, cfg.l1Decide(DataOf(n, s)))
  }

  /** The slot once the fragment is in it; a free slot is filled first. */
  function WithL0(s: Slot, source: nat, burst: nat): Slot {
    var t := if s.unfinished then s else FREE.(unfinished := true, burst := burst);
    t.(l0 := t.l0 + {source})
  }

  function AddingL0(s: Slot): seq<Action> { if s.unfinished then [AddL0] else [Fill, AddL0] }

  /** `L1Builder::buildEvent`. A fragment already present is dropped. */
  function AddL0Effect(cfg: Config, n: nat, s: Slot, source: nat, burst: nat, storeOk: bool): Effect {
    var t := WithL0(s, source, burst);
    if source !in cfg.l0Sources || (s.unfinished && source in s.l0) then Nothing(s)
    else if t.l0 == cfg.l0Sources then Then(AddingL0(s) + [Complete], L1Effect(cfg, n, t, storeOk))
    else Effect(t, AddingL0(s), [], 0, false)
  }

  /** `L2Builder::buildEvent`. Data of an event that has not been through L1 is dropped. */
  function AddL1Effect(cfg: Config, n: nat, s: Slot, source: nat): Effect {
    if !s.unfinished || !s.l1Processed || source !in cfg.l1Sources || source in s.l1 then Nothing(s)
    else
      var t := s.(l1 := s.l1 + {source});
      if t.l1 == cfg.l1Sources then Then([AddL1], L2Effect(cfg, n, t)) else Effect(t, [AddL1], [], 0, false)
  }

  /** One index of the end-of-burst sweep. */
  function SweepEffect(cfg: Config, n: nat, s: Slot): Effect {
    if !s.unfinished then Nothing(s)
    else
      var r := DataOf(n, s);
      Effect(FREE, (if cfg.isLast(r) then [Store(r)] else []) + [FreeSwept(r, s.l0 == cfg.l0Sources)],
        if cfg.isLast(r) then [r] else [], 0, false)
  }

  // ---------- the state ----------

  datatype Entry = Entry(n: nat, action: Action)

  /** A trigger response on its way: the event as it was serialised and the word found for it. */
  datatype Message = Message(n: nat, event: Slot, word: nat)

  datatype Farm = Farm(
    slots: seq<Slot>, largestTouched: nat, storage: seq<Record>, l1Requests: nat,
    log: seq<Entry>, queue: seq<Message>, currentBurst: nat)

  function Tagged(n: nat, actions: seq<Action>): (es: seq<Entry>)
    ensures |es| == |actions|
  {
    seq(|actions|, i requires 0 <= i < |actions| => Entry(n, actions[i]))
  }

  function Apply(cfg: Config, f: Farm, n: nat, e: Effect): Farm
    requires n < |f.slots|
  {
    Farm(f.slots[n := e.slot], f.largestTouched, f.storage + e.stored, f.l1Requests + e.requests,
      f.log + Tagged(n, e.actions),
      f.queue + if e.shipped then [Message(n, e.slot, cfg.l1Decide(DataOf(n, e.slot)))] else [],
      f.currentBurst)
  }

  function Touch(f: Farm, n: nat): Farm {
    if n > f.largestTouched then f.(largestTouched := n) else f
  }

  function Initial(cfg: Config): Farm {
    Farm(seq(cfg.poolSize, _ => FREE), 0, [], 0, [], [], 0)
  }

  datatype Step =
    | L0Fragment(n: nat, source: nat, burst: nat, storeOk: bool)
    | L1Fragment(n: nat, source: nat)
    | Response(pos: nat)
    | EndOfBurst(order: seq<nat>, nextBurst: nat)

  /** Each index up to the largest touched exactly once, in some order. */
  predicate VisitsAll(f: Farm, order: seq<nat>) {
    && (forall i, j :: 0 <= i < j < |order| ==> order[i] != order[j])
    && (forall i :: 0 <= i < |order| ==> order[i] <= f.largestTouched && order[i] < |f.slots|)
    && (forall n: nat :: n <= f.largestTouched && n < |f.slots| ==> n in order)
  }

  /** Fragments carry the burst that was current when the task of their frames was built; burst numbers grow.
      The sweep and the change of the burst number are one step. */
  predicate Enabled(f: Farm, step: Step) {
    match step
    case L0Fragment(_, _, burst, _) => burst <= f.currentBurst
    case L1Fragment(_, _) => true
    case Response(pos) => pos < |f.queue|
    case EndOfBurst(order, nextBurst) => VisitsAll(f, order) && nextBurst > f.currentBurst
  }

  function Sweep(cfg: Config, f: Farm, order: seq<nat>): (r: Farm)
    requires forall i :: 0 <= i < |order| ==> order[i] < |f.slots|
    ensures |r.slots| == |f.slots|
  {
    if order == [] then f
    else
      var n := order[|order| - 1];
      var g := Sweep(cfg, f, order[..|order| - 1]);
      Apply(cfg, g, n, SweepEffect(cfg, n, g.slots[n]))
  }

  /** `QueueReceiver::thread`, one message: responses of other bursts are dropped. */
  function Receive(cfg: Config, f: Farm, pos: nat): Farm
    requires pos < |f.queue|
  {
    var m := f.queue[pos];
    var g := f.(queue := f.queue[..pos] + f.queue[pos + 1..]);
    if m.event.burst != f.currentBurst || m.n >= |f.slots| then g
    else Apply(cfg, Touch(g, m.n), m.n, DisposeEffect(cfg, m.n, g.slots[m.n], m.word))
  }

  function After(cfg: Config, f: Farm, step: Step): Farm
    requires Enabled(f, step)
  {
    match step
    case L0Fragment(n, source, burst, storeOk) =>
      if n >= |f.slots| then f else Apply(cfg, Touch(f, n), n, AddL0Effect(cfg, n, f.slots[n], source, burst, storeOk))
    case L1Fragment(n, source) =>
      if n >= |f.slots| then f else Apply(cfg, Touch(f, n), n, AddL1Effect(cfg, n, f.slots[n], source))
    case Response(pos) => Receive(cfg, f, pos)
    case EndOfBurst(order, nextBurst) => Sweep(cfg, f, order).(currentBurst := nextBurst)
  }

  /** The states of a run. */
  ghost predicate Run(cfg: Config, steps: seq<Step>, states: seq<Farm>) {
    && |states| == |steps| + 1 && states[0] == Initial(cfg)
    && forall i :: 0 <= i < |steps| ==> Enabled(states[i], steps[i]) && states[i + 1] == After(cfg, states[i], steps[i])
  }
}
