/** The event pool and the calls that change it: `L1Builder`, `L2Builder`, `QueueReceiver` and the
    end-of-burst sweep. Every method does to the pool what the step of `Events` says. */
module EventBuilders {
  import opened Events
  import opened Lifecycle
  import opened EndOfBurstSweep

  lemma TaggedConcat(n: nat, a: seq<Action>, b: seq<Action>)
    ensures Tagged(n, a + b) == Tagged(n, a) + Tagged(n, b)
  {
  }

  /** Actions on the way to a slot value, then an effect on it, are one effect. */
  lemma ApplyThen(cfg: Config, f: Farm, n: nat, s: Slot, actions: seq<Action>, e: Effect)
    requires n < |f.slots|
    ensures Apply(cfg, Apply(cfg, f, n, Effect(s, actions, [], 0, false)), n, e) == Apply(cfg, f, n, Then(actions, e))
  {
    TaggedConcat(n, actions, e.actions);
    assert f.log + Tagged(n, actions) + Tagged(n, e.actions) == f.log + (Tagged(n, actions) + Tagged(n, e.actions));
    assert f.storage + [] + e.stored == f.storage + e.stored;
    assert f.queue + [] == f.queue;
  }

  lemma TaggedOne(n: nat, a: Action)
    ensures Tagged(n, [a]) == [Entry(n, a)]
  {
  }

  lemma TaggedTwo(n: nat, a: Action, b: Action)
    ensures Tagged(n, [a, b]) == [Entry(n, a), Entry(n, b)]
  {
  }

  lemma TaggedThree(n: nat, a: Action, b: Action, c: Action)
    ensures Tagged(n, [a, b, c]) == [Entry(n, a), Entry(n, b), Entry(n, c)]
  {
  }

  lemma AppendTwo(log: seq<Entry>, a: Entry, b: Entry)
    ensures log + [a] + [b] == log + [a, b]
  {
  }

  lemma AppendThree(log: seq<Entry>, a: Entry, b: Entry, c: Entry)
    ensures log + [a] + [b] + [c] == log + [a, b, c]
  {
  }

  lemma SetSlot(cfg: Config, f: Farm, n: nat, e: Effect)
    requires n < |f.slots|
    ensures Apply(cfg, f, n, e).slots == f.slots[n := e.slot]
  {
  }

  lemma PoolBounds(cfg: Config, f: Farm)
    requires PoolOk(cfg, f) && |f.slots| > 0
    ensures f.largestTouched < |f.slots|
    ensures forall n :: 0 <= n < |f.slots| && f.slots[n].unfinished ==> n <= f.largestTouched
  {
    hide SlotOk, History, Play, StageOf;
  }

  lemma NothingSwept(cfg: Config, f: Farm)
    ensures Sweep(cfg, f, Ascending(0, 0)) == f
  {
  }

  lemma {:induction false} AscendingLength(n: nat)
    ensures |Ascending(0, n)| == n && forall i :: 0 <= i < n ==> Ascending(0, n)[i] == i
  {
    if n > 0 { AscendingLength(n - 1); }
  }

  lemma AscendingVisitsAll(f: Farm)
    requires f.largestTouched < |f.slots|
    ensures VisitsAll(f, Ascending(0, f.largestTouched + 1))
  {
    var order := Ascending(0, f.largestTouched + 1);
    AscendingLength(f.largestTouched + 1);
    forall n: nat | n <= f.largestTouched ensures n in order {
      assert order[n] == n;
    }
  }

  lemma NoneBelow(f: Farm)
    ensures UnfinishedBelow(f, 0) == {} && RequestedBelow(f, 0) == {}
  {
  }

  lemma OneMore(f: Farm, k: nat)
    requires k < |f.slots|
    ensures |UnfinishedBelow(f, k + 1)| == |UnfinishedBelow(f, k)| + if f.slots[k].unfinished then 1 else 0
    ensures |RequestedBelow(f, k + 1)|
      == |RequestedBelow(f, k)| + if f.slots[k].unfinished && f.slots[k].l1Requested then 1 else 0
  {
    var u, r := UnfinishedBelow(f, k), RequestedBelow(f, k);
    assert UnfinishedBelow(f, k + 1) == if f.slots[k].unfinished then u + {k} else u;
    assert RequestedBelow(f, k + 1) == if f.slots[k].unfinished && f.slots[k].l1Requested then r + {k} else r;
  }

  lemma OneMoreSwept(cfg: Config, f: Farm, k: nat)
    requires k < |f.slots|
    ensures Sweep(cfg, f, Ascending(0, k + 1))
      == var g := Sweep(cfg, f, Ascending(0, k)); Apply(cfg, g, k, SweepEffect(cfg, k, g.slots[k]))
  {
    AscendingLength(k);
    assert Ascending(0, k + 1)[..k] == Ascending(0, k);
  }

  lemma AllBelow(f: Farm)
    requires forall n :: 0 <= n < |f.slots| && f.slots[n].unfinished ==> n <= f.largestTouched
    ensures UnfinishedBelow(f, f.largestTouched + 1) == Unfinished(f)
    ensures RequestedBelow(f, f.largestTouched + 1) == UnfinishedRequested(f)
  {
  }

  lemma DifferenceIsNatural(f: Farm)
    ensures |UnfinishedRequested(f)| <= |Unfinished(f)|
  {
    SubsetIsSmaller(UnfinishedRequested(f), Unfinished(f));
  }

  class EventPool {
    const cfg: Config
    const slots: array<Slot>
    var largestTouched: nat
    var storage: seq<Record>
    var l1Requests: nat
    var queue: seq<Message>
    var currentBurst: nat
    ghost var log: seq<Entry>

    // `QueueReceiver`
    var highestBurstIdReceived: nat
    var eventReceivedPerBurst: nat

    ghost function State(): Farm
      reads this, slots
    {
      Farm(slots[..], largestTouched, storage, l1Requests, log, queue, currentBurst)
    }

    constructor (cfg: Config)
      ensures this.cfg == cfg && fresh(slots) && State() == Initial(cfg)
    {
      this.cfg := cfg;
      slots := new Slot[cfg.poolSize](_ => FREE);
      largestTouched, storage, l1Requests, queue, currentBurst, log := 0, [], 0, [], 0, [];
      highestBurstIdReceived, eventReceivedPerBurst := 0, 0;
      new;
      assert slots[..] == Initial(cfg).slots;
    }

    /** `EventPool::getEvent`: remembers the largest index asked for. */
    method GetEvent(n: nat) returns (found: bool)
      modifies this`largestTouched
      ensures found <==> n < slots.Length
      ensures State() == if found then Touch(old(State()), n) else old(State())
    {
      found := n < slots.Length;
      if found && n > largestTouched {
        largestTouched := n;
      }
    }

    /** Sets a slot and records what was done to it. */
    method Set(n: nat, s: Slot, ghost actions: seq<Action>)
      requires n < slots.Length
      modifies slots, this`log
      ensures State() == Apply(cfg, old(State()), n, Effect(s, actions, [], 0, false))
    {
      ghost var before := State();
      slots[n] := s;
      log := log + Tagged(n, actions);
      assert slots[..] == before.slots[n := s];
      assert storage + [] == storage && queue + [] == queue;
    }

    method ProcessL2(n: nat)
      requires n < slots.Length
      modifies slots, this`log, this`storage
      ensures State() == Apply(cfg, old(State()), n, L2Effect(cfg, n, old(slots[n])))
    {
      hide Tagged;
      ghost var before := State();
      var event := slots[n];
      var r := DataOf(n, event);
      log := log + [Entry(n, RunL2(r))];
      if !cfg.l2Active {
        storage := storage + [r];
        log := log + [Entry(n, Store(r))];
      } else if !event.waitingNonZSuppressed {
        slots[n] := Computed(cfg, n, event);
        if !slots[n].waitingNonZSuppressed {
          if cfg.l2Decide(r).accepted {
            storage := storage + [r];
            log := log + [Entry(n, Store(r))];
          }
        }
      }
      slots[n] := FREE;
      log := log + [Entry(n, FreeProcessed)];
      TaggedTwo(n, RunL2(r), FreeProcessed);
      TaggedThree(n, RunL2(r), Store(r), FreeProcessed);
      AppendTwo(before.log, Entry(n, RunL2(r)), Entry(n, FreeProcessed));
      AppendThree(before.log, Entry(n, RunL2(r)), Entry(n, Store(r)), Entry(n, FreeProcessed));
      assert slots[..] == before.slots[n := FREE];
      assert before.storage + [] == before.storage && queue + [] == queue;
    }

    method SendL1Request(n: nat)
      modifies this`l1Requests
      ensures l1Requests == old(l1Requests) + 1
    {
      l1Requests := l1Requests + 1;
    }

    /** What follows an L1 trigger word, in `processL1` and in `QueueReceiver::thread` alike. */
    method DisposeOf(n: nat, word: nat)
      requires n < slots.Length
      modifies slots, this`log, this`storage, this`l1Requests
      ensures State() == Apply(cfg, old(State()), n, DisposeEffect(cfg, n, old(slots[n]), word))
    {
      hide Tagged, L2Effect;
      ghost var before := State();
      var event := slots[n].(l1Processed := true);
      if word != 0 {
        if |cfg.l1Sources| != 0 {
          SendL1Request(n);
          if cfg.sharedMemory {
            event := event.(l1Requested := true);
          }
          Set(n, event, [RunL1(word), Request]);
        } else {
          Set(n, event, [RunL1(word)]);
          ProcessL2(n);
          ApplyThen(cfg, before, n, event, [RunL1(word)], L2Effect(cfg, n, event));
        }
      } else {
        Set(n, FREE, [RunL1(word), FreeRejected]);
      }
    }

    method ProcessL1(n: nat, storeOk: bool)
      requires n < slots.Length
      modifies slots, this`log, this`storage, this`l1Requests, this`queue
      ensures State() == Apply(cfg, old(State()), n, L1Effect(cfg, n, old(slots[n]), storeOk))
    {
      hide DisposeEffect, Tagged;
      if cfg.sharedMemory {
        if storeOk {
          var event := slots[n];
          Set(n, event, [Ship]);
          queue := queue + [Message(n, event, cfg.l1Decide(DataOf(n, event)))];
        } else {
          DisposeOf(n, L1_BYPASS_WORD);
        }
      } else {
        DisposeOf(n, cfg.l1Decide(DataOf(n, slots[n])));
      }
    }

    /** `L1Builder::buildEvent`. */
    method BuildL0(n: nat, source: nat, burst: nat, storeOk: bool)
      modifies slots, this`log, this`storage, this`l1Requests, this`queue, this`largestTouched
      ensures burst <= old(currentBurst) ==>
        State() == After(cfg, old(State()), L0Fragment(n, source, burst, storeOk))
      ensures State() == if n < slots.Length
        then Apply(cfg, Touch(old(State()), n), n, AddL0Effect(cfg, n, old(slots[n]), source, burst, storeOk))
        else old(State())
    {
      hide L1Effect, Tagged, Apply;
      var found := GetEvent(n);
      if !found { return; }
      ghost var before := State();
      var event := slots[n];
      ApplyNothing(cfg, before, n);
      if source !in cfg.l0Sources || (event.unfinished && source in event.l0) { return; }
      var filled := WithL0(event, source, burst);
      if filled.l0 == cfg.l0Sources {
        Set(n, filled, AddingL0(event) + [Complete]);
        SetSlot(cfg, before, n, Effect(filled, AddingL0(event) + [Complete], [], 0, false));
        ProcessL1(n, storeOk);
        ApplyThen(cfg, before, n, filled, AddingL0(event) + [Complete], L1Effect(cfg, n, filled, storeOk));
      } else {
        Set(n, filled, AddingL0(event));
      }
    }

    /** `L2Builder::buildEvent`. */
    method BuildL1(n: nat, source: nat)
      modifies slots, this`log, this`storage, this`largestTouched
      ensures State() == After(cfg, old(State()), L1Fragment(n, source))
    {
      hide L2Effect, Tagged, Apply;
      var found := GetEvent(n);
      if !found { return; }
      ghost var before := State();
      var event := slots[n];
      ApplyNothing(cfg, before, n);
      if !event.unfinished || !event.l1Processed || source !in cfg.l1Sources || source in event.l1 { return; }
      var filled := event.(l1 := event.l1 + {source});
      Set(n, filled, [AddL1]);
      SetSlot(cfg, before, n, Effect(filled, [AddL1], [], 0, false));
      if filled.l1 == cfg.l1Sources {
        ProcessL2(n);
        ApplyThen(cfg, before, n, filled, [AddL1], L2Effect(cfg, n, filled));
      }
    }

    /** One turn of `QueueReceiver::thread`: takes the response at `pos`, whichever has priority. */
    method ReceiveResponse(pos: nat)
      requires pos < |queue|
      modifies this, slots
      ensures State() == After(cfg, old(State()), Response(pos))
      ensures old(queue)[pos].event.burst == old(currentBurst) ==>
        && highestBurstIdReceived ==
             (if old(highestBurstIdReceived) < old(currentBurst) then old(currentBurst) else old(highestBurstIdReceived))
        && eventReceivedPerBurst ==
             (if old(highestBurstIdReceived) < old(currentBurst) then 0 else old(eventReceivedPerBurst)) + 1
      ensures old(queue)[pos].event.burst != old(currentBurst) ==>
        highestBurstIdReceived == old(highestBurstIdReceived) && eventReceivedPerBurst == old(eventReceivedPerBurst)
    {
      hide DisposeEffect, Tagged;
      var message := queue[pos];
      queue := queue[..pos] + queue[pos + 1..];
      if message.event.burst != currentBurst {
        return;
      }
      if highestBurstIdReceived < message.event.burst {
        highestBurstIdReceived := message.event.burst;
        eventReceivedPerBurst := 0;
      }
      eventReceivedPerBurst := eventReceivedPerBurst + 1;
      var found := GetEvent(message.n);
      if found {
        DisposeOf(message.n, message.word);
      }
    }

    /** The body of the sweep: stores an unfinished last event, frees every unfinished one. */
    method SweepIndex(n: nat) returns (unfinished: bool, requested: bool)
      requires n < slots.Length
      modifies slots, this`log, this`storage
      ensures State() == Apply(cfg, old(State()), n, SweepEffect(cfg, n, old(slots[n])))
      ensures unfinished == old(slots[n]).unfinished && requested == (unfinished && old(slots[n]).l1Requested)
    {
      hide Tagged;
      ghost var before := State();
      var event := slots[n];
      unfinished, requested := event.unfinished, event.unfinished && event.l1Requested;
      ApplyNothing(cfg, before, n);
      if unfinished {
        var r := DataOf(n, event);
        if cfg.isLast(r) {
          storage := storage + [r];
          log := log + [Entry(n, Store(r))];
        }
        slots[n] := FREE;
        log := log + [Entry(n, FreeSwept(r, event.l0 == cfg.l0Sources))];
        TaggedOne(n, FreeSwept(r, event.l0 == cfg.l0Sources));
        TaggedTwo(n, Store(r), FreeSwept(r, event.l0 == cfg.l0Sources));
        AppendTwo(before.log, Entry(n, Store(r)), Entry(n, FreeSwept(r, event.l0 == cfg.l0Sources)));
        var free := FreeSwept(r, event.l0 == cfg.l0Sources);
        assert [Store(r)] + [free] == [Store(r), free];
        assert [] + [FreeSwept(r, event.l0 == cfg.l0Sources)] == [FreeSwept(r, event.l0 == cfg.l0Sources)];
        assert slots[..] == before.slots[n := FREE];
        assert before.storage + [] == before.storage && queue + [] == queue;
      }
    }

    /** The sweep of `onBurstFinished`, run over the indices in ascending order, and the change of burst. */
    method OnBurstFinished(nextBurst: nat) returns (incomplete: nat, withL1Request: nat, incompleteAtL0: nat)
      requires PoolOk(cfg, State()) && slots.Length > 0
      requires nextBurst > currentBurst
      modifies slots, this`log, this`storage, this`currentBurst
      ensures VisitsAll(old(State()), Ascending(0, old(largestTouched) + 1))
      ensures State() == After(cfg, old(State()), EndOfBurst(Ascending(0, old(largestTouched) + 1), nextBurst))
      ensures incomplete == |Unfinished(old(State()))| && withL1Request == |UnfinishedRequested(old(State()))|
      ensures incompleteAtL0 == incomplete - withL1Request
      ensures currentBurst == nextBurst && queue == old(queue)
    {
      hide Tagged, History, StageOf, Play, SlotOk, SweepEffect, Apply, Unfinished, UnfinishedRequested,
        UnfinishedBelow, RequestedBelow, PoolOk, Sweep, Ascending, VisitsAll;
      ghost var before := State();
      PoolBounds(cfg, before);
      NothingSwept(cfg, before);
      AscendingVisitsAll(before);
      NoneBelow(before);
      incomplete, withL1Request := 0, 0;
      var index := 0;
      while index != largestTouched + 1
        invariant 0 <= index <= largestTouched + 1 <= slots.Length
        invariant State() == Sweep(cfg, before, Ascending(0, index))
        invariant forall k :: index <= k < slots.Length ==> slots[k] == before.slots[k]
        invariant incomplete == |UnfinishedBelow(before, index)| && withL1Request == |RequestedBelow(before, index)|
        decreases largestTouched + 1 - index
      {
        ghost var g := State();
        OneMore(before, index);
        OneMoreSwept(cfg, before, index);
        SetSlot(cfg, g, index, SweepEffect(cfg, index, slots[index]));
        var unfinished, requested := SweepIndex(index);
        assert forall k :: index < k < slots.Length ==> slots[k] == State().slots[k] == g.slots[k];
        if unfinished { incomplete := incomplete + 1; }
        if requested { withL1Request := withL1Request + 1; }
        index := index + 1;
      }
      AllBelow(before);
      DifferenceIsNatural(before);
      incompleteAtL0 := incomplete - withL1Request;
      currentBurst := nextBurst;
    }
  }

  function UnfinishedBelow(f: Farm, k: nat): set<nat> {
    set n | 0 <= n < k && n < |f.slots| && f.slots[n].unfinished
  }

  function RequestedBelow(f: Farm, k: nat): set<nat> {
    set n | 0 <= n < k && n < |f.slots| && f.slots[n].unfinished && f.slots[n].l1Requested
  }
}
