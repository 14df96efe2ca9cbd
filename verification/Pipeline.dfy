/** Frames on their way from the network to the handlers: packet handlers gather them into tasks on a
    shared queue, task processors take the tasks off and execute them. */
module Pipeline {
  import opened Sums
  import opened Network
  import opened Reassembly
  import opened StoreRuns
  import opened FragmentStores
  import opened FrameHandling
  import opened FrameTasks
  import opened Verdicts

  // ---------- the producer ----------

  datatype Arrival = Nothing | Arrived(packet: Packet)

  /** What one poll of the network gives, and whether the burst is being flushed at that moment. */
  datatype Poll = Poll(arrival: Arrival, flushBurst: bool)

  function Accepts(mtu: nat, poll: Poll): seq<Packet> {
    if poll.arrival.Arrived? && !poll.flushBurst && |poll.arrival.packet.bytes| <= mtu then [poll.arrival.packet]
    else []
  }

  /** The frames accepted from the polls from lo up to hi. */
  function Gathered(mtu: nat, polls: nat -> Poll, lo: nat, hi: nat): seq<Packet>
    decreases hi
  {
    if hi <= lo then [] else Gathered(mtu, polls, lo, hi - 1) + Accepts(mtu, polls(hi - 1))
  }

  lemma {:induction false} GatheredConcat(mtu: nat, polls: nat -> Poll, lo: nat, mid: nat, hi: nat)
    requires lo <= mid <= hi
    ensures Gathered(mtu, polls, lo, hi) == Gathered(mtu, polls, lo, mid) + Gathered(mtu, polls, mid, hi)
    decreases hi
  {
    hide Accepts;
    if mid < hi { GatheredConcat(mtu, polls, lo, mid, hi - 1); }
  }

  /** Poll i gave the packet p to keep. */
  predicate Took(mtu: nat, poll: Poll, p: Packet) {
    poll.arrival == Arrived(p) && !poll.flushBurst && |p.bytes| <= mtu
  }

  /** `at` are, in order, the polls from lo up to hi that gave a packet to keep, and `ps` those packets. */
  ghost predicate Keeping(mtu: nat, polls: nat -> Poll, lo: nat, hi: nat, at: seq<nat>, ps: seq<Packet>) {
    && |at| == |ps|
    && (forall j, k :: 0 <= j < k < |at| ==> at[j] < at[k])
    && (forall j :: 0 <= j < |at| ==> lo <= at[j] < hi && Took(mtu, polls(at[j]), ps[j]))
    && (forall i, p :: lo <= i < hi && Took(mtu, polls(i), p) ==> i in at)
  }

  /** The frame of a poll is taken exactly if it arrived, the burst was not being flushed then and it is
      no longer than the MTU; the order is that of the polls. */
  lemma {:induction false} GatheredAreKept(mtu: nat, polls: nat -> Poll, lo: nat, hi: nat) returns (at: seq<nat>)
    ensures Keeping(mtu, polls, lo, hi, at, Gathered(mtu, polls, lo, hi))
    decreases hi
  {
    if hi <= lo {
      at := [];
    } else {
      var init := GatheredAreKept(mtu, polls, lo, hi - 1);
      var ps := Gathered(mtu, polls, lo, hi - 1);
      var last := polls(hi - 1);
      if last.arrival.Arrived? && Took(mtu, last, last.arrival.packet) {
        at := init + [hi - 1];
        assert Gathered(mtu, polls, lo, hi) == ps + [last.arrival.packet];
        forall i, q | lo <= i < hi && Took(mtu, polls(i), q) ensures i in at {
          if i < hi - 1 { assert i in init; } else { assert at[|init|] == i; }
        }
      } else {
        at := init;
        assert Gathered(mtu, polls, lo, hi) == ps + [];
      }
    }
  }

  /** The first poll of round n, of f polls each. */
  function RoundStart(f: nat, n: nat): nat { if n == 0 then 0 else RoundStart(f, n - 1) + f }

  lemma {:induction false} RoundStartIs(f: nat, n: nat)
    ensures RoundStart(f, n) == n * f
  {
    if n > 0 {
      RoundStartIs(f, n - 1);
      assert n * f == (n - 1) * f + f;
    }
  }

  /** The batches of the first n rounds. */
  function Rounds(mtu: nat, polls: nat -> Poll, f: nat, n: nat): seq<seq<Packet>> {
    if n == 0 then []
    else Rounds(mtu, polls, f, n - 1) + [Gathered(mtu, polls, RoundStart(f, n - 1), RoundStart(f, n))]
  }

  function NonEmpty(batches: seq<seq<Packet>>): seq<seq<Packet>> {
    if batches == [] then []
    else
      var last := batches[|batches| - 1];
      NonEmpty(batches[..|batches| - 1]) + if last == [] then [] else [last]
  }

  /** Round k gathers from the polls from k * f up to k * f + f. */
  lemma {:induction false} RoundsAreBatches(mtu: nat, polls: nat -> Poll, f: nat, n: nat)
    ensures |Rounds(mtu, polls, f, n)| == n
    ensures forall k :: 0 <= k < n ==> Rounds(mtu, polls, f, n)[k] == Gathered(mtu, polls, k * f, k * f + f)
  {
    hide Gathered;
    if n > 0 {
      RoundsAreBatches(mtu, polls, f, n - 1);
      RoundStartIs(f, n - 1);
    }
  }

  lemma {:induction false} GatheredIsBounded(mtu: nat, polls: nat -> Poll, lo: nat, hi: nat)
    requires lo <= hi
    ensures |Gathered(mtu, polls, lo, hi)| <= hi - lo
    decreases hi
  {
    if lo < hi { GatheredIsBounded(mtu, polls, lo, hi - 1); }
  }

  lemma NoneGathered(mtu: nat, polls: nat -> Poll, i: nat)
    ensures Gathered(mtu, polls, i, i) == []
  {
  }

  function Flatten<T>(xss: seq<seq<T>>): seq<T> {
    if xss == [] then [] else Flatten(xss[..|xss| - 1]) + xss[|xss| - 1]
  }

  lemma {:induction false} FlattenConcat<T>(xss: seq<seq<T>>, yss: seq<seq<T>>)
    ensures Flatten(xss + yss) == Flatten(xss) + Flatten(yss)
    decreases |yss|
  {
    if yss == [] {
      assert xss + yss == xss;
    } else {
      assert (xss + yss)[..|xss + yss| - 1] == xss + yss[..|yss| - 1];
      FlattenConcat(xss, yss[..|yss| - 1]);
    }
  }

  lemma FlattenOne<T>(xs: seq<T>)
    ensures Flatten([xs]) == xs
  {
    assert [xs][..0] == [];
  }

  lemma NextRound(mtu: nat, polls: nat -> Poll, f: nat, n: nat)
    ensures var batch := Gathered(mtu, polls, RoundStart(f, n), RoundStart(f, n + 1));
      NonEmpty(Rounds(mtu, polls, f, n + 1)) == NonEmpty(Rounds(mtu, polls, f, n)) + if batch == [] then [] else [batch]
    ensures RoundStart(f, n + 1) == RoundStart(f, n) + f
  {
    hide Gathered;
    var before := Rounds(mtu, polls, f, n);
    assert (before + [Gathered(mtu, polls, RoundStart(f, n), RoundStart(f, n + 1))])[..|before|] == before;
  }

  lemma AppendTask<T>(tasks: seq<seq<T>>, batch: seq<T>, f: nat)
    requires |batch| <= f && forall i :: 0 <= i < |tasks| ==> 0 < |tasks[i]| <= f
    ensures var more := tasks + if batch == [] then [] else [batch];
      Flatten(more) == Flatten(tasks) + batch && forall i :: 0 <= i < |more| ==> 0 < |more[i]| <= f
  {
    hide Flatten;
    if batch == [] {
      assert tasks + [] == tasks;
    } else {
      FlattenConcat(tasks, [batch]);
      FlattenOne(batch);
    }
  }

  /** The tasks pushed after n rounds hold every frame accepted so far, in order; none is empty or longer
      than a round. */
  lemma {:induction false} TasksHoldFrames(mtu: nat, polls: nat -> Poll, f: nat, n: nat)
    ensures var tasks := NonEmpty(Rounds(mtu, polls, f, n));
      && Flatten(tasks) == Gathered(mtu, polls, 0, RoundStart(f, n))
      && forall i :: 0 <= i < |tasks| ==> 0 < |tasks[i]| <= f
  {
    hide Gathered;
    if n == 0 {
      NoneGathered(mtu, polls, 0);
    } else {
      hide Flatten, NonEmpty, Rounds, RoundStart;
      var lo, hi := RoundStart(f, n - 1), RoundStart(f, n);
      var batch := Gathered(mtu, polls, lo, hi);
      TasksHoldFrames(mtu, polls, f, n - 1);
      NextRound(mtu, polls, f, n - 1);
      GatheredConcat(mtu, polls, 0, lo, hi);
      GatheredIsBounded(mtu, polls, lo, hi);
      AppendTask(NonEmpty(Rounds(mtu, polls, f, n - 1)), batch, f);
    }
  }

  lemma OneMorePoll(mtu: nat, polls: nat -> Poll, lo: nat, i: nat)
    requires lo <= i
    ensures Gathered(mtu, polls, lo, i + 1) == Gathered(mtu, polls, lo, i) + Accepts(mtu, polls(i))
  {
    hide Accepts;
  }

  lemma NoRounds(mtu: nat, polls: nat -> Poll, f: nat)
    ensures NonEmpty(Rounds(mtu, polls, f, 0)) == [] && forall g :: RoundStart(g, 0) == 0
  {
  }

  lemma Products(a: nat, b: nat, c: nat)
    requires a < b
    ensures a * c + c <= b * c
  {
    assert (b - a - 1) * c >= 0;
    assert b * c == a * c + c + (b - a - 1) * c;
  }

  /** Rounds of f + 1 checks and a rest are quotient and remainder. */
  lemma Quotient(checks: nat, f: nat, round: nat, rest: nat)
    requires checks == round * (f + 1) + rest && rest < f + 1
    ensures checks / (f + 1) == round && checks % (f + 1) == rest
  {
    var q, r := checks / (f + 1), checks % (f + 1);
    assert checks == q * (f + 1) + r;
    if q < round { Products(q, round, f + 1); }
    if q > round { Products(round, q, f + 1); }
  }

  /** The state in which the thread stops, after `rest` checks of a round it does not complete. */
  lemma Stopped(mtu: nat, polls: nat -> Poll, checks: nat, f: nat, round: nat, rest: nat, polled: nat)
    requires checks == RoundStart(f + 1, round) + rest && rest < f + 1
    requires polled == RoundStart(f, round) + if rest > 0 then rest - 1 else 0
    ensures checks / (f + 1) == round && checks % (f + 1) == rest && RoundStart(f, round) == round * f
    ensures var tasks := NonEmpty(Rounds(mtu, polls, f, round));
      && Flatten(tasks) + Gathered(mtu, polls, round * f, polled) == Gathered(mtu, polls, 0, polled)
      && forall i :: 0 <= i < |tasks| ==> 0 < |tasks[i]| <= f
  {
    hide Gathered, NonEmpty, Rounds, Flatten;
    RoundStartIs(f, round);
    RoundStartIs(f + 1, round);
    Quotient(checks, f, round, rest);
    TasksHoldFrames(mtu, polls, f, round);
    GatheredConcat(mtu, polls, 0, RoundStart(f, round), polled);
  }

  class PacketHandler {
    const framesToBeGathered: nat
    const mtu: nat
    var pushed: seq<seq<Packet>>  // the tasks this handler has put on the queue
    var frameHandleTasksSpawned: nat
    var sleeps: nat

    constructor (framesToBeGathered: nat, mtu: nat)
      ensures this.framesToBeGathered == framesToBeGathered && this.mtu == mtu
      ensures pushed == [] && frameHandleTasksSpawned == sleeps == 0
    {
      this.framesToBeGathered, this.mtu := framesToBeGathered, mtu;
      pushed, frameHandleTasksSpawned, sleeps := [], 0, 0;
    }

    /** The thread. `checks` is how often it finds `running_` set. A round takes one check and one for each
        poll, so q rounds are completed and r - 1 polls of another one made, where q and r are quotient and
        remainder. The frames of a completed round are pushed as one task, unless there are none; those of
        the last polls are abandoned. */
    method Thread(polls: nat -> Poll, checks: nat) returns (polled: nat, abandoned: seq<Packet>)
      modifies this`pushed, this`frameHandleTasksSpawned, this`sleeps
      ensures var f := framesToBeGathered;
        var q, r := checks / (f + 1), checks % (f + 1);
        && polled == q * f + (if r > 0 then r - 1 else 0)
        && pushed == old(pushed) + NonEmpty(Rounds(mtu, polls, f, q))
        && abandoned == Gathered(mtu, polls, q * f, polled)
        && frameHandleTasksSpawned - old(frameHandleTasksSpawned) == |pushed| - |old(pushed)|
        && sleeps - old(sleeps) == q - (|pushed| - |old(pushed)|)
      ensures Flatten(pushed[|old(pushed)|..]) + abandoned == Gathered(mtu, polls, 0, polled)
      ensures forall i :: |old(pushed)| <= i < |pushed| ==> 0 < |pushed[i]| <= framesToBeGathered
    {
      hide Gathered, Accepts, NonEmpty, Rounds, RoundStart, Flatten;
      var left, f := checks, framesToBeGathered;
      polled, abandoned := 0, [];
      ghost var round, own: seq<seq<Packet>> := 0, [];
      NoRounds(mtu, polls, f);
      while left > 0
        invariant left + RoundStart(f + 1, round) == checks && polled == RoundStart(f, round) && 0 <= left
        invariant pushed == old(pushed) + own && own == NonEmpty(Rounds(mtu, polls, f, round)) && abandoned == []
        invariant frameHandleTasksSpawned == old(frameHandleTasksSpawned) + |own|
        invariant sleeps == old(sleeps) + round - |own|
        decreases left
      {
        left := left - 1;
        var frames: seq<Packet> := [];
        var stepNum := 0;
        NoneGathered(mtu, polls, polled);
        while stepNum != f
          invariant 0 <= stepNum <= f && 0 <= left
          invariant left + 1 + stepNum + RoundStart(f + 1, round) == checks && polled == RoundStart(f, round) + stepNum
          invariant frames == Gathered(mtu, polls, RoundStart(f, round), polled)
          decreases f - stepNum
          modifies {}
        {
          if left == 0 {
            abandoned := frames;
            Stopped(mtu, polls, checks, f, round, 1 + stepNum, polled);
            assert pushed[|old(pushed)|..] == own;
            return;
          }
          left := left - 1;
          frames := frames + Accepts(mtu, polls(polled));
          OneMorePoll(mtu, polls, RoundStart(f, round), polled);
          polled := polled + 1;
          stepNum := stepNum + 1;
        }
        if frames != [] {
          pushed := pushed + [frames];
          own := own + [frames];
          frameHandleTasksSpawned := frameHandleTasksSpawned + 1;
        } else {
          sleeps := sleeps + 1;
        }
        NextRound(mtu, polls, f, round);
        NextRound(mtu, polls, f + 1, round);
        round := round + 1;
      }
      NoneGathered(mtu, polls, polled);
      Stopped(mtu, polls, checks, f, round, 0, polled);
      assert pushed[|old(pushed)|..] == own;
    }
  }

  // ---------- the consumer ----------

  lemma {:induction false} HandleAllConcat(
      cfg: Config, b: Books, ps: seq<Packet>, fs: seq<bool>, qs: seq<Packet>, gs: seq<bool>)
    requires |ps| == |fs| && |qs| == |gs|
    ensures HandleAll(cfg, b, ps + qs, fs + gs) == HandleAll(cfg, HandleAll(cfg, b, ps, fs), qs, gs)
    decreases |qs|
  {
    hide Handle;
    if qs == [] {
      assert ps + qs == ps && fs + gs == fs;
    } else {
      var n := |qs| - 1;
      assert (ps + qs)[..|ps + qs| - 1] == ps + qs[..n] && (fs + gs)[..|fs + gs| - 1] == fs + gs[..n];
      HandleAllConcat(cfg, b, ps, fs, qs[..n], gs[..n]);
    }
  }

  lemma {:induction false} SameShapeSameLength(tasks: seq<seq<Packet>>, flush: seq<seq<bool>>)
    requires |tasks| == |flush| && forall i :: 0 <= i < |tasks| ==> |tasks[i]| == |flush[i]|
    ensures |Flatten(tasks)| == |Flatten(flush)|
  {
    if tasks != [] { SameShapeSameLength(tasks[..|tasks| - 1], flush[..|flush| - 1]); }
  }

  lemma NothingHandled(cfg: Config, b: Books)
    ensures HandleAll(cfg, b, [], []) == b
  {
  }

  class TaskProcessor {
    const handler: FrameHandler
    var tasksQueue: seq<seq<Packet>>
    var queuedTasksNum: nat

    constructor (handler: FrameHandler, tasksQueue: seq<seq<Packet>>)
      ensures this.handler == handler && this.tasksQueue == tasksQueue && queuedTasksNum == |tasksQueue|
    {
      this.handler, this.tasksQueue := handler, tasksQueue;
      queuedTasksNum := |tasksQueue|;
    }

    /** The thread, alone on the queue: takes tasks off the front, executes each completely and deletes
        it. `flushBurst` says for every container whether the burst is being flushed then. */
    method Thread(checks: nat, flushBurst: seq<seq<bool>>)
      requires handler.Valid()
      requires |flushBurst| == |tasksQueue| && forall i :: 0 <= i < |tasksQueue| ==> |tasksQueue[i]| == |flushBurst[i]|
      requires queuedTasksNum == |tasksQueue|
      modifies this`tasksQueue, this`queuedTasksNum, handler, handler.fragmentStore, handler.fragmentStore.fragmentsById
      ensures handler.Valid() && queuedTasksNum == |tasksQueue|
      ensures var k := if checks < |old(tasksQueue)| then checks else |old(tasksQueue)|;
        && tasksQueue == old(tasksQueue)[k..]
        && |Flatten(old(tasksQueue)[..k])| == |Flatten(flushBurst[..k])|
        && handler.Account() == HandleAll(handler.cfg, old(handler.Account()),
             Flatten(old(tasksQueue)[..k]), Flatten(flushBurst[..k]))
    {
      hide Handle, Places, HandleAll, Chosen, FreesInput, HandsOnInput, Judged, Merge, Consistent, Sharded;
      var left, k := checks, 0;
      NothingHandled(handler.cfg, handler.Account());
      ghost var all := tasksQueue;
      assert all[..0] == [] && flushBurst[..0] == [];
      while left > 0
        invariant 0 <= left && 0 <= k <= |all| && handler.Valid()
        invariant handler.fragmentStore.fragmentsById == old(handler.fragmentStore.fragmentsById)
        invariant left + k == checks || (k == |all| && k <= checks)
        invariant tasksQueue == all[k..] && queuedTasksNum == |tasksQueue|
        invariant |Flatten(all[..k])| == |Flatten(flushBurst[..k])|
        invariant handler.Account()
          == HandleAll(handler.cfg, old(handler.Account()), Flatten(all[..k]), Flatten(flushBurst[..k]))
        decreases left
      {
        left := left - 1;
        if tasksQueue != [] {
          var task := tasksQueue[0];
          tasksQueue := tasksQueue[1..];
          HandleAllConcat(handler.cfg, old(handler.Account()), Flatten(all[..k]), Flatten(flushBurst[..k]),
            task, flushBurst[k]);
          assert all[..k + 1][..k] == all[..k] && flushBurst[..k + 1][..k] == flushBurst[..k];
          var _ := handler.Execute(task, flushBurst[k]);
          queuedTasksNum := queuedTasksNum - 1;
          k := k + 1;
        }
      }
      assert k == if checks < |all| then checks else |all|;
    }
  }
}

/** All producers and consumers at once, as steps on one state; any interleaving is a run. */
module PipelineRuns {
  import opened Sums
  import opened Network
  import opened StoreRuns
  import opened FrameHandling

  datatype Task = Task(producer: nat, containers: seq<Packet>)

  /** What a task processor is doing: the task it holds and how many of its containers are done. */
  datatype Worker = Idle | Busy(task: Task, done: nat)

  datatype System = System(
    received: seq<seq<Packet>>,  // by producer: frames it has accepted, in order
    batches: seq<seq<Packet>>,   // by producer: the batch it is gathering
    taken: seq<Task>,            // tasks popped so far, in order
    queue: seq<Task>,
    workers: seq<Worker>,
    books: Books,
    queuedTasksNum: int)

  datatype Step =
    | Receive(p: nat, packet: Packet)
    | Push(p: nat)
    | Pop(w: nat)
    | HandleNext(w: nat, flushBurst: bool)
    | Delete(w: nat)

  predicate Enabled(limit: nat, s: System, step: Step) {
    match step
    case Receive(p, _) => p < |s.batches| && p < |s.received| && |s.batches[p]| < limit
    case Push(p) => p < |s.batches| && s.batches[p] != []
    case Pop(w) => w < |s.workers| && s.workers[w].Idle? && s.queue != []
    case HandleNext(w, _) => w < |s.workers| && s.workers[w].Busy? && s.workers[w].done < |s.workers[w].task.containers|
    case Delete(w) => w < |s.workers| && s.workers[w].Busy? && s.workers[w].done == |s.workers[w].task.containers|
  }

  predicate Shape(s: System) {
    && |s.received| == |s.batches|
    && forall w :: 0 <= w < |s.workers| && s.workers[w].Busy? ==> s.workers[w].done <= |s.workers[w].task.containers|
  }

  function After(cfg: Config, limit: nat, s: System, step: Step): System
    requires Enabled(limit, s, step)
  {
    match step
    case Receive(p, packet) =>
      s.(received := s.received[p := s.received[p] + [packet]], batches := s.batches[p := s.batches[p] + [packet]])
    case Push(p) =>
      s.(batches := s.batches[p := []], queue := s.queue + [Task(p, s.batches[p])],
         queuedTasksNum := s.queuedTasksNum + 1)
    case Pop(w) =>
      s.(taken := s.taken + [s.queue[0]], queue := s.queue[1..], workers := s.workers[w := Busy(s.queue[0], 0)])
    case HandleNext(w, flushBurst) =>
      var worker := s.workers[w];
      s.(workers := s.workers[w := worker.(done := worker.done + 1)],
         books := Handle(cfg, s.books, worker.task.containers[worker.done], flushBurst))
    case Delete(w) => s.(workers := s.workers[w := Idle], queuedTasksNum := s.queuedTasksNum - 1)
  }

  function Start(producers: nat, consumers: nat): System {
    System(seq(producers, _ => []), seq(producers, _ => []), [], [], seq(consumers, _ => Idle),
      Books(map[], [], [], [], []), 0)
  }

  ghost predicate Run(cfg: Config, limit: nat, producers: nat, consumers: nat, steps: seq<Step>, states: seq<System>) {
    && |states| == |steps| + 1 && states[0] == Start(producers, consumers)
    && forall i :: 0 <= i < |steps| ==>
         Enabled(limit, states[i], steps[i])
         && states[i + 1] == After(cfg, limit, states[i], steps[i])
  }

  // ---------- order ----------

  /** The frames of producer p's tasks, in the order of the tasks. */
  function FramesOf(tasks: seq<Task>, p: nat): seq<Packet> {
    if tasks == [] then []
    else
      var last := tasks[|tasks| - 1];
      FramesOf(tasks[..|tasks| - 1], p) + (if last.producer == p then last.containers else [])
  }

  lemma {:induction false} FramesOfConcat(a: seq<Task>, b: seq<Task>, p: nat)
    ensures FramesOf(a + b, p) == FramesOf(a, p) + FramesOf(b, p)
    decreases |b|
  {
    if b == [] {
      assert a + b == a;
    } else {
      assert (a + b)[..|a + b| - 1] == a + b[..|b| - 1];
      FramesOfConcat(a, b[..|b| - 1], p);
    }
  }

  /** No frame is lost, duplicated or reordered between a producer and the task processors. */
  predicate InOrder(s: System) {
    && |s.received| == |s.batches|
    && forall p :: 0 <= p < |s.received| ==> s.received[p] == FramesOf(s.taken + s.queue, p) + s.batches[p]
  }

  // ---------- counting ----------

  function InTask(c: Packet): Task -> int { (t: Task) => multiset(t.containers)[c] as int }

  /** Copies of c among the containers a worker has not handled yet. */
  function Unhandled(c: Packet): Worker -> int {
    (w: Worker) =>
      if w.Busy? && w.done <= |w.task.containers| then multiset(w.task.containers[w.done..])[c] as int else 0
  }

  function Working(): Worker -> int { (w: Worker) => if w.Busy? then 1 else 0 }

  predicate Sizes(limit: nat, s: System) {
    && (forall t :: t in s.taken + s.queue ==> 0 < |t.containers| <= limit && t.producer < |s.batches|)
    && (forall p :: 0 <= p < |s.batches| ==> |s.batches[p]| <= limit)
  }

  ghost predicate Conserved(s: System) {
    && (forall c :: Sum(s.taken, InTask(c)) == Sum(s.workers, Unhandled(c)) + Places(s.books, c))
    && s.queuedTasksNum == |s.queue| + Sum(s.workers, Working())
    && Consistent(s.books.store)
  }

  ghost predicate Inv(limit: nat, s: System) { Shape(s) && InOrder(s) && Sizes(limit, s) && Conserved(s) }

  lemma FramesOfOne(t: Task, p: nat)
    ensures FramesOf([t], p) == if t.producer == p then t.containers else []
  {
    assert [t][..0] == [];
  }

  lemma StepKeepsOrder(cfg: Config, limit: nat, s: System, step: Step)
    requires Shape(s) && Enabled(limit, s, step) && InOrder(s)
    ensures Shape(After(cfg, limit, s, step)) && InOrder(After(cfg, limit, s, step))
  {
    hide Handle, FramesOf;
    var r := After(cfg, limit, s, step);
    match step
    case Push(p) =>
      forall q | 0 <= q < |r.received| ensures r.received[q] == FramesOf(r.taken + r.queue, q) + r.batches[q] {
        assert r.taken + r.queue == (s.taken + s.queue) + [Task(p, s.batches[p])];
        FramesOfConcat(s.taken + s.queue, [Task(p, s.batches[p])], q);
        FramesOfOne(Task(p, s.batches[p]), q);
      }
    case Pop(w) => assert r.taken + r.queue == s.taken + s.queue;
    case Receive(_, _) =>
    case HandleNext(_, _) =>
    case Delete(_) =>
  }

  lemma StepKeepsSizes(cfg: Config, limit: nat, s: System, step: Step)
    requires Shape(s) && Enabled(limit, s, step) && Sizes(limit, s)
    ensures Sizes(limit, After(cfg, limit, s, step))
  {
    hide Handle;
    var r := After(cfg, limit, s, step);
    match step
    case Push(p) => assert r.taken + r.queue == (s.taken + s.queue) + [Task(p, s.batches[p])];
    case Pop(w) => assert r.taken + r.queue == s.taken + s.queue;
    case _ =>
  }

  lemma HandledOne(containers: seq<Packet>, i: nat, c: Packet)
    requires i < |containers|
    ensures multiset(containers[i..])[c] == multiset(containers[i + 1..])[c] + if containers[i] == c then 1 else 0
  {
    assert containers[i..] == [containers[i]] + containers[i + 1..];
  }

  lemma StepConserves(cfg: Config, limit: nat, s: System, step: Step)
    requires Shape(s) && Enabled(limit, s, step) && Conserved(s)
    ensures Conserved(After(cfg, limit, s, step))
  {
    hide Handle, Places, Consistent, Sum;
    var r := After(cfg, limit, s, step);
    match step
    case Receive(_, _) =>
    case Push(_) =>
    case Pop(w) =>
      SumUpdate(s.workers, w, Busy(s.queue[0], 0), Working());
      forall c ensures Sum(r.taken, InTask(c)) == Sum(r.workers, Unhandled(c)) + Places(r.books, c) {
        SumUpdate(s.workers, w, Busy(s.queue[0], 0), Unhandled(c));
        SumConcat(s.taken, [s.queue[0]], InTask(c));
        SumSingle(s.queue[0], InTask(c));
        assert s.queue[0].containers[0..] == s.queue[0].containers;
      }
    case HandleNext(w, flushBurst) =>
      var worker := s.workers[w];
      var p := worker.task.containers[worker.done];
      SumUpdate(s.workers, w, worker.(done := worker.done + 1), Working());
      HandleConserves(cfg, s.books, p, flushBurst, p);
      forall c ensures Sum(r.taken, InTask(c)) == Sum(r.workers, Unhandled(c)) + Places(r.books, c) {
        SumUpdate(s.workers, w, worker.(done := worker.done + 1), Unhandled(c));
        HandledOne(worker.task.containers, worker.done, c);
        HandleConserves(cfg, s.books, p, flushBurst, c);
      }
    case Delete(w) =>
      SumUpdate(s.workers, w, Idle, Working());
      forall c ensures Sum(r.taken, InTask(c)) == Sum(r.workers, Unhandled(c)) + Places(r.books, c) {
        SumUpdate(s.workers, w, Idle, Unhandled(c));
      }
  }

  lemma StartInv(limit: nat, producers: nat, consumers: nat)
    ensures Inv(limit, Start(producers, consumers))
  {
    var s := Start(producers, consumers);
    SumZero(s.workers, Working());
    forall c ensures Sum(s.taken, InTask(c)) == Sum(s.workers, Unhandled(c)) + Places(s.books, c) {
      SumZero(s.workers, Unhandled(c));
    }
  }

  lemma {:induction false} RunKeepsInv(
      cfg: Config, limit: nat, producers: nat, consumers: nat, steps: seq<Step>, states: seq<System>, i: nat)
    requires Run(cfg, limit, producers, consumers, steps, states) && i <= |steps|
    ensures Inv(limit, states[i])
  {
    hide Conserved, InOrder, Sizes, Shape, After, Start, Enabled;
    if i == 0 {
      StartInv(limit, producers, consumers);
    } else {
      RunKeepsInv(cfg, limit, producers, consumers, steps, states, i - 1);
      StepKeepsOrder(cfg, limit, states[i - 1], steps[i - 1]);
      StepKeepsSizes(cfg, limit, states[i - 1], steps[i - 1]);
      StepConserves(cfg, limit, states[i - 1], steps[i - 1]);
    }
  }

  // ---------- rounds and tasks as runs ----------

  /** A piece of a run, from one state to another. */
  ghost predicate Path(cfg: Config, limit: nat, from: System, steps: seq<Step>, to: System)
    decreases |steps|
  {
    if steps == [] then from == to
    else Enabled(limit, from, steps[0]) && Path(cfg, limit, After(cfg, limit, from, steps[0]), steps[1..], to)
  }

  lemma {:induction false} PathConcat(
      cfg: Config, limit: nat, a: System, steps: seq<Step>, b: System, more: seq<Step>, c: System)
    requires Path(cfg, limit, a, steps, b) && Path(cfg, limit, b, more, c)
    ensures Path(cfg, limit, a, steps + more, c)
    decreases |steps|
  {
    hide Enabled, After;
    if steps == [] {
      assert steps + more == more;
    } else {
      PathConcat(cfg, limit, After(cfg, limit, a, steps[0]), steps[1..], b, more, c);
      assert (steps + more)[1..] == steps[1..] + more;
    }
  }

  lemma OneStep(cfg: Config, limit: nat, s: System, step: Step)
    requires Enabled(limit, s, step)
    ensures Path(cfg, limit, s, [step], After(cfg, limit, s, step))
  {
    hide After, Enabled;
    assert [step][1..] == [];
  }

  /** Producer p has accepted these frames more, and they are in its batch. */
  function Holding(s: System, p: nat, frames: seq<Packet>): System
    requires p < |s.received| && p < |s.batches|
  {
    s.(received := s.received[p := s.received[p] + frames], batches := s.batches[p := s.batches[p] + frames])
  }

  lemma {:induction false} Accepting(cfg: Config, limit: nat, s: System, p: nat, frames: seq<Packet>)
      returns (steps: seq<Step>)
    requires p < |s.received| && p < |s.batches| && |s.batches[p]| + |frames| <= limit
    ensures Path(cfg, limit, s, steps, Holding(s, p, frames))
  {
    if frames == [] {
      steps := [];
      assert s.received[p] + frames == s.received[p] && s.batches[p] + frames == s.batches[p];
    } else {
      hide Path;
      var n := |frames| - 1;
      var t := Holding(s, p, frames[..n]);
      var before := Accepting(cfg, limit, s, p, frames[..n]);
      OneStep(cfg, limit, t, Receive(p, frames[n]));
      assert frames == frames[..n] + [frames[n]];
      assert t.received[p] + [frames[n]] == s.received[p] + frames;
      assert t.batches[p] + [frames[n]] == s.batches[p] + frames;
      assert After(cfg, limit, t, Receive(p, frames[n])) == Holding(s, p, frames);
      PathConcat(cfg, limit, s, before, t, [Receive(p, frames[n])], Holding(s, p, frames));
      steps := before + [Receive(p, frames[n])];
    }
  }

  /** A round of a packet handler that accepts some frames, no more than there may be in a task, is a run: it
      ends with one more task, of exactly these frames, at the end of the queue. */
  lemma RoundIsRun(cfg: Config, limit: nat, s: System, p: nat, frames: seq<Packet>) returns (steps: seq<Step>)
    requires p < |s.received| && p < |s.batches| && s.batches[p] == [] && 0 < |frames| <= limit
    ensures Path(cfg, limit, s, steps, s.(
      received := s.received[p := s.received[p] + frames], queue := s.queue + [Task(p, frames)],
      queuedTasksNum := s.queuedTasksNum + 1))
  {
    hide Path;
    var before := Accepting(cfg, limit, s, p, frames);
    var t := Holding(s, p, frames);
    assert t.batches[p] == [] + frames == frames;
    OneStep(cfg, limit, t, Push(p));
    assert t.batches[p := []] == s.batches;
    PathConcat(cfg, limit, s, before, t, [Push(p)], After(cfg, limit, t, Push(p)));
    steps := before + [Push(p)];
  }

  /** The worker has handled the first k containers of its task. */
  function Handled(cfg: Config, s: System, w: nat, task: Task, flush: seq<bool>, k: nat): System
    requires w < |s.workers| && k <= |task.containers| == |flush|
  {
    s.(workers := s.workers[w := Busy(task, k)], books := HandleAll(cfg, s.books, task.containers[..k], flush[..k]))
  }

  lemma {:induction false} Executing(cfg: Config, limit: nat, s: System, w: nat, task: Task, flush: seq<bool>, k: nat)
      returns (steps: seq<Step>)
    requires w < |s.workers| && s.workers[w] == Busy(task, 0) && k <= |task.containers| == |flush|
    ensures Path(cfg, limit, s, steps, Handled(cfg, s, w, task, flush, k))
  {
    hide Handle;
    if k == 0 {
      steps := [];
      assert s.workers[w := Busy(task, 0)] == s.workers;
    } else {
      hide Path;
      var before := Executing(cfg, limit, s, w, task, flush, k - 1);
      var t, step := Handled(cfg, s, w, task, flush, k - 1), HandleNext(w, flush[k - 1]);
      OneStep(cfg, limit, t, step);
      assert task.containers[..k][..k - 1] == task.containers[..k - 1] && flush[..k][..k - 1] == flush[..k - 1];
      assert After(cfg, limit, t, step) == Handled(cfg, s, w, task, flush, k);
      PathConcat(cfg, limit, s, before, t, [step], Handled(cfg, s, w, task, flush, k));
      steps := before + [step];
    }
  }

  /** What an idle task processor does with the first task of the queue is a run, whatever the flushing says
      meanwhile: the task is taken, its containers are handled in order, and it is deleted. */
  lemma TaskIsRun(cfg: Config, limit: nat, s: System, w: nat, flush: seq<bool>) returns (steps: seq<Step>)
    requires w < |s.workers| && s.workers[w].Idle? && s.queue != [] && |flush| == |s.queue[0].containers|
    ensures Path(cfg, limit, s, steps, s.(
      taken := s.taken + [s.queue[0]], queue := s.queue[1..],
      books := HandleAll(cfg, s.books, s.queue[0].containers, flush), queuedTasksNum := s.queuedTasksNum - 1))
  {
    hide Path, Handle, HandleAll;
    var task := s.queue[0];
    var n := |task.containers|;
    var t := After(cfg, limit, s, Pop(w));
    OneStep(cfg, limit, s, Pop(w));
    var during := Executing(cfg, limit, t, w, task, flush, n);
    var u := Handled(cfg, t, w, task, flush, n);
    assert task.containers[..n] == task.containers && flush[..n] == flush;
    OneStep(cfg, limit, u, Delete(w));
    assert u.workers[w := Idle] == s.workers;
    PathConcat(cfg, limit, s, [Pop(w)], t, during, u);
    PathConcat(cfg, limit, s, [Pop(w)] + during, u, [Delete(w)], After(cfg, limit, u, Delete(w)));
    steps := [Pop(w)] + during + [Delete(w)];
  }

  /** Copies of c in batches. */
  function InBatch(c: Packet): seq<Packet> -> int { (b: seq<Packet>) => multiset(b)[c] as int }

  lemma NoFrames(received: seq<seq<Packet>>)
    requires forall p :: 0 <= p < |received| ==> received[p] == FramesOf([], p)
    ensures forall p :: 0 <= p < |received| ==> received[p] == []
  {
  }

  lemma FramesOfLast(init: seq<Task>, last: Task, p: nat)
    ensures FramesOf(init + [last], p)
      == if p == last.producer then FramesOf(init, p) + last.containers else FramesOf(init, p)
  {
    assert (init + [last])[..|init|] == init;
  }

  lemma {:induction false} FramesCount(tasks: seq<Task>, producers: nat, received: seq<seq<Packet>>, c: Packet)
    requires |received| == producers && forall t :: t in tasks ==> t.producer < producers
    requires forall p :: 0 <= p < producers ==> received[p] == FramesOf(tasks, p)
    ensures Sum(received, InBatch(c)) == Sum(tasks, InTask(c))
  {
    hide FramesOf;
    if tasks == [] {
      NoFrames(received);
      SumZero(received, InBatch(c));
    } else {
      var init, last := tasks[..|tasks| - 1], tasks[|tasks| - 1];
      var before := seq(producers, p requires 0 <= p < producers => FramesOf(init, p));
      assert last in tasks;
      FramesCount(init, producers, before, c);
      forall p | 0 <= p < producers
        ensures received[p] == if p == last.producer then before[p] + last.containers else before[p]
      {
        FramesOfLast(init, last, p);
        assert tasks == init + [last];
      }
      assert received == before[last.producer := before[last.producer] + last.containers];
      SumUpdate(before, last.producer, before[last.producer] + last.containers, InBatch(c));
    }
  }

  lemma {:induction false} SumOfSplit(whole: seq<seq<Packet>>, a: seq<seq<Packet>>, b: seq<seq<Packet>>, c: Packet)
    requires |whole| == |a| == |b| && forall p :: 0 <= p < |whole| ==> whole[p] == a[p] + b[p]
    ensures Sum(whole, InBatch(c)) == Sum(a, InBatch(c)) + Sum(b, InBatch(c))
  {
    if whole != [] {
      var n := |whole| - 1;
      SumOfSplit(whole[..n], a[..n], b[..n], c);
      assert multiset(a[n] + b[n])[c] == multiset(a[n])[c] + multiset(b[n])[c];
    }
  }

  lemma CountPlaces(limit: nat, s: System, c: Packet)
    requires Inv(limit, s)
    ensures Sum(s.received, InBatch(c))
      == Sum(s.batches, InBatch(c)) + Sum(s.queue, InTask(c)) + Sum(s.workers, Unhandled(c)) + Places(s.books, c)
  {
    hide Places, Sum, Consistent, FramesOf;
    var n, tasks := |s.batches|, s.taken + s.queue;
    var gone := seq(n, p requires 0 <= p < n => FramesOf(tasks, p));
    FramesCount(tasks, n, gone, c);
    SumOfSplit(s.received, gone, s.batches, c);
    SumConcat(s.taken, s.queue, InTask(c));
  }

  /** In every state of every run each accepted container is in exactly one place: in a batch being
      gathered, in a queued task, in a task being executed and not handled yet, or in the books, that
      is in the fragment store, freed, released by the store, handed to a MEP, or an ARP request. */
  lemma EveryContainerHasOnePlace(
      cfg: Config, limit: nat, producers: nat, consumers: nat, steps: seq<Step>, states: seq<System>, i: nat, c: Packet)
    requires Run(cfg, limit, producers, consumers, steps, states) && i <= |steps|
    ensures var s := states[i];
      Sum(s.received, InBatch(c))
        == Sum(s.batches, InBatch(c)) + Sum(s.queue, InTask(c)) + Sum(s.workers, Unhandled(c)) + Places(s.books, c)
  {
    hide Places, Sum, Consistent, FramesOf, After, Start, Inv;
    RunKeepsInv(cfg, limit, producers, consumers, steps, states, i);
    CountPlaces(limit, states[i], c);
  }

  /** A container accepted once is never freed twice: at most one of being freed by the handler, freed
      by the store, held by it, and handed on has happened to it. */
  lemma NeverFreedTwice(
      cfg: Config, limit: nat, producers: nat, consumers: nat, steps: seq<Step>, states: seq<System>, i: nat, c: Packet)
    requires Run(cfg, limit, producers, consumers, steps, states) && i <= |steps|
    requires Sum(states[i].received, InBatch(c)) <= 1
    ensures multiset(states[i].books.freed)[c] + multiset(states[i].books.released)[c]
      + HeldCopies(states[i].books.store, c) + multiset(states[i].books.handed)[c] <= 1
  {
    hide After, Start, Sum, HeldCopies;
    EveryContainerHasOnePlace(cfg, limit, producers, consumers, steps, states, i, c);
    SumNonNegative(states[i].batches, InBatch(c));
    SumNonNegative(states[i].queue, InTask(c));
    SumNonNegative(states[i].workers, Unhandled(c));
  }
}
