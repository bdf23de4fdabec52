/** The work queue of the host driver: any number of threads enqueue transfers, one worker thread
    takes them out, does them and reports each to the runtime. Mutex and condition variable are
    modelled by the atomic steps that use them; the channel is alive, so the worker does not stop. */
module DmaQueue {
  import opened DmaTransfer
  import opened Totals

  // What a caller asks for, with the runtime's handle for the operation.
  datatype Item = Item(op: nat, work: WorkItem)

  datatype Report = Report(item: Item, status: int)

  datatype WorkerPlace =
    | Top
    | Checking                               // holds the mutex
    | Asleep                                 // waits on the condition variable, mutex released
    | Awake                                  // woken, has to take the mutex again
    | Popped(item: Item)                     // holds the mutex
    | Doing(item: Item)
    | Reporting(item: Item, status: int)

  datatype CallerPlace =
    | Entering(item: Item)
    | Locked(item: Item)                     // holds the mutex
    | Pushed                                 // holds the mutex
    | Notifying                              // mutex released, notify_one still to come

  datatype Holder = Nobody | Worker | Caller(id: nat)

  datatype System = System(mutex: Holder, queue: seq<Item>, worker: WorkerPlace, callers: map<nat, CallerPlace>,
                           enqueued: seq<Item>, done: seq<Report>, reported: seq<Report>,
                           setup: Setup, mem: Memories)

  datatype Action =
    | Enter(t: nat, item: Item)
    | CallerLock(t: nat)
    | Push(t: nat)
    | CallerUnlock(t: nat)
    | Notify(t: nat)
    | WorkerLock
    | Check                                  // sees whether the queue is empty: sleeps or pops
    | SpuriousWake
    | Relock
    | WorkerUnlock
    | Do(status: int, after: Memories)       // after says what a failed transfer leaves
    | Tell

  function Start(setup: Setup, mem: Memories): System {
    System(Nobody, [], Top, map[], [], [], [], setup, mem)
  }

  function Step(s: System, a: Action): System {
    match a
    case Enter(t, item) => if t !in s.callers then s.(callers := s.callers[t := Entering(item)]) else s
    case CallerLock(t) =>
      if t in s.callers && s.callers[t].Entering? && s.mutex.Nobody?
      then s.(mutex := Caller(t), callers := s.callers[t := Locked(s.callers[t].item)]) else s
    case Push(t) =>
      if t in s.callers && s.callers[t].Locked?
      then s.(queue := s.queue + [s.callers[t].item], enqueued := s.enqueued + [s.callers[t].item],
              callers := s.callers[t := Pushed]) else s
    case CallerUnlock(t) =>
      if t in s.callers && s.callers[t].Pushed? then s.(mutex := Nobody, callers := s.callers[t := Notifying]) else s
    case Notify(t) =>
      if t in s.callers && s.callers[t].Notifying?
      then s.(callers := s.callers - {t}, worker := if s.worker.Asleep? then Awake else s.worker) else s
    case WorkerLock => if s.worker.Top? && s.mutex.Nobody? then s.(mutex := Worker, worker := Checking) else s
    case Check =>
      if !s.worker.Checking? then s
      else if s.queue == [] then s.(mutex := Nobody, worker := Asleep)
      else s.(queue := s.queue[1..], worker := Popped(s.queue[0]))
    case SpuriousWake => if s.worker.Asleep? then s.(worker := Awake) else s
    case Relock => if s.worker.Awake? && s.mutex.Nobody? then s.(mutex := Worker, worker := Checking) else s
    case WorkerUnlock => if s.worker.Popped? then s.(mutex := Nobody, worker := Doing(s.worker.item)) else s
    case Do(status, after) =>
      if s.worker.Doing?
      then s.(worker := Reporting(s.worker.item, status), done := s.done + [Report(s.worker.item, status)],
              mem := if status == 0 then Copied(s.setup, s.mem, s.worker.item.work) else after) else s
    case Tell =>
      if s.worker.Reporting?
      then s.(worker := Top, reported := s.reported + [Report(s.worker.item, s.worker.status)]) else s
  }

  function Run(s: System, actions: seq<Action>): System
    decreases |actions|
  {
    if actions == [] then s else Run(Step(s, actions[0]), actions[1..])
  }

  // The item the worker has taken out and not done yet.
  function InHand(s: System): seq<Item> {
    match s.worker
    case Popped(item) => [item]
    case Doing(item) => [item]
    case _ => []
  }

  function Unreported(s: System): seq<Report> {
    match s.worker
    case Reporting(item, status) => [Report(item, status)]
    case _ => []
  }

  function Items(rs: seq<Report>): (items: seq<Item>)
    ensures |items| == |rs|
    ensures forall i | 0 <= i < |rs| :: items[i] == rs[i].item
  {
    seq(|rs|, i requires 0 <= i < |rs| => rs[i].item)
  }

  predicate WorkerHolds(p: WorkerPlace) { p.Checking? || p.Popped? }

  predicate CallerHolds(p: CallerPlace) { p.Locked? || p.Pushed? }

  // Somebody has pushed an item and not notified yet.
  predicate NotifyPending(s: System) {
    exists t :: t in s.callers && (s.callers[t].Pushed? || s.callers[t].Notifying?)
  }

  predicate MutexInv(s: System) {
    && (s.mutex.Worker? <==> WorkerHolds(s.worker))
    && (s.mutex.Caller? ==> s.mutex.id in s.callers && CallerHolds(s.callers[s.mutex.id]))
    && (forall t | t in s.callers && CallerHolds(s.callers[t]) :: s.mutex == Caller(t))
  }

  predicate Inv(s: System) {
    && MutexInv(s)
    && s.enqueued == Items(s.done) + InHand(s) + s.queue
    && s.done == s.reported + Unreported(s)
    && (s.queue != [] && s.worker.Asleep? ==> NotifyPending(s))
  }

  lemma MutexStep(s: System, a: Action)
    requires MutexInv(s)
    ensures MutexInv(Step(s, a))
  {
  }

  lemma OrderStep(s: System, a: Action)
    requires Inv(s)
    ensures var s' := Step(s, a);
            s'.enqueued == Items(s'.done) + InHand(s') + s'.queue && s'.done == s'.reported + Unreported(s')
  {
  }

  lemma WakeStep(s: System, a: Action)
    requires Inv(s)
    ensures var s' := Step(s, a);
            s'.queue != [] && s'.worker.Asleep? ==> NotifyPending(s')
  {
    var s' := Step(s, a);
    if s'.queue != [] && s'.worker.Asleep? {
      if a.Push? && s' != s {
        assert a.t in s'.callers && s'.callers[a.t].Pushed?;
      } else {
        var t :| t in s.callers && (s.callers[t].Pushed? || s.callers[t].Notifying?);
        assert t in s'.callers && (s'.callers[t].Pushed? || s'.callers[t].Notifying?);
      }
    }
  }

  lemma {:induction false} RunKeepsInv(s: System, actions: seq<Action>)
    requires Inv(s)
    ensures Inv(Run(s, actions))
    decreases |actions|
  {
    if actions != [] {
      MutexStep(s, actions[0]);
      OrderStep(s, actions[0]);
      WakeStep(s, actions[0]);
      hide MutexInv, Step, InHand, Unreported, Items, NotifyPending;
      RunKeepsInv(Step(s, actions[0]), actions[1..]);
    }
  }

  lemma ReachableInv(setup: Setup, mem: Memories, actions: seq<Action>)
    ensures Inv(Run(Start(setup, mem), actions))
  {
    RunKeepsInv(Start(setup, mem), actions);
  }

  /** On every interleaving: each transfer is done once and reported once, in the order of enqueueing and with
      the status it was done with; and the worker never sleeps on a non-empty queue with no notify to come. */
  lemma DoneOnceInOrder(setup: Setup, mem: Memories, actions: seq<Action>)
    ensures var s := Run(Start(setup, mem), actions);
            && s.enqueued == Items(s.done) + InHand(s) + s.queue
            && s.reported <= s.done && |s.done| <= |s.reported| + 1
            && (s.queue != [] && s.worker.Asleep? ==> NotifyPending(s))
  {
    RunKeepsInv(Start(setup, mem), actions);
  }

  // Nothing queued, in hand or to report, and no caller under way.
  predicate Drained(s: System) {
    s.queue == [] && InHand(s) == [] && Unreported(s) == [] && s.callers == map[]
  }

  // A step that the threads take by themselves.
  predicate OwnStep(a: Action) { !a.Enter? && !a.SpuriousWake? }

  /** No deadlock and no lost wake-up: on every interleaving, as long as anything is left to do, some thread can
      take a step of its own, without a new caller and without a spurious wake-up. */
  lemma NeverStuck(setup: Setup, mem: Memories, actions: seq<Action>) returns (a: Action)
    requires !Drained(Run(Start(setup, mem), actions))
    ensures OwnStep(a)
    ensures Step(Run(Start(setup, mem), actions), a) != Run(Start(setup, mem), actions)
  {
    hide Items, Run;
    var s := Run(Start(setup, mem), actions);
    ReachableInv(setup, mem, actions);
    match s.mutex
    case Worker =>
      a := if s.worker.Checking? then Check else WorkerUnlock;
    case Caller(t) =>
      a := if s.callers[t].Locked? then Push(t) else CallerUnlock(t);
    case Nobody =>
      match s.worker
      case Top => a := WorkerLock;
      case Awake => a := Relock;
      case Doing(_) => a := Do(0, s.mem);
      case Reporting(_, _) => a := Tell;
      case _ =>
        a := CallerCanGo(s);
  }

  lemma CallerCanGo(s: System) returns (a: Action)
    requires Inv(s) && s.mutex.Nobody? && s.worker.Asleep?
    requires s.callers != map[] || s.queue != []
    ensures OwnStep(a) && Step(s, a) != s
  {
    assert s.callers != map[];
    var t :| t in s.callers;
    a := if s.callers[t].Entering? then CallerLock(t) else Notify(t);
    assert s.callers[t].Notifying? ==> t !in Step(s, a).callers;
    assert s.callers[t].Entering? ==> Step(s, a).mutex == Caller(t);
  }

  // Steps that are left

  // A caller that pushes adds one item, and one that notifies may wake the worker.
  function CallerLeft(p: CallerPlace): nat {
    match p
    case Entering(_) => 12
    case Locked(_) => 11
    case Pushed => 4
    case Notifying => 3
  }

  function CallersLeft(callers: map<nat, CallerPlace>): map<nat, nat> {
    map t | t in callers :: CallerLeft(callers[t])
  }

  function WorkerLeft(p: WorkerPlace): nat {
    match p
    case Asleep => 0
    case Checking => 1
    case Top => 2
    case Awake => 2
    case Reporting(_, _) => 3
    case Doing(_) => 4
    case Popped(_) => 5
  }

  // What the worker, the queue and the callers still have to do. A queued item costs the worker six steps.
  ghost function Left(s: System): nat {
    WorkerLeft(s.worker) + 6 * |s.queue| + Total(CallersLeft(s.callers))
  }

  lemma CallerMoves(callers: map<nat, CallerPlace>, t: nat, p: CallerPlace)
    requires t in callers
    ensures Total(CallersLeft(callers[t := p])) == Total(CallersLeft(callers)) - CallerLeft(callers[t]) + CallerLeft(p)
  {
    TotalUpdated(CallersLeft(callers), t, CallerLeft(p));
    assert CallersLeft(callers[t := p]) == CallersLeft(callers)[t := CallerLeft(p)];
  }

  lemma CallerLeaves(callers: map<nat, CallerPlace>, t: nat)
    requires t in callers
    ensures Total(CallersLeft(callers - {t})) == Total(CallersLeft(callers)) - CallerLeft(callers[t])
  {
    TotalWithout(CallersLeft(callers), t);
    assert CallersLeft(callers - {t}) == CallersLeft(callers) - {t};
  }

  lemma CallerStepCosts(s: System, a: Action)
    requires a.CallerLock? || a.Push? || a.CallerUnlock? || a.Notify?
    requires Step(s, a) != s
    ensures Left(Step(s, a)) < Left(s)
  {
    hide CallersLeft;
    match a
    case CallerLock(t) => CallerMoves(s.callers, t, Locked(s.callers[t].item));
    case Push(t) => CallerMoves(s.callers, t, Pushed);
    case CallerUnlock(t) => CallerMoves(s.callers, t, Notifying);
    case Notify(t) => CallerLeaves(s.callers, t);
  }

  lemma WorkerStepCosts(s: System, a: Action)
    requires a.WorkerLock? || a.Check? || a.Relock? || a.WorkerUnlock? || a.Do? || a.Tell?
    requires Step(s, a) != s
    ensures Left(Step(s, a)) < Left(s)
  {
    assert Step(s, a).callers == s.callers;
  }

  lemma OwnStepCosts(s: System, a: Action)
    requires OwnStep(a) && Step(s, a) != s
    ensures Left(Step(s, a)) < Left(s)
  {
    hide Step, Left;
    match a
    case CallerLock(t) => CallerStepCosts(s, a);
    case Push(t) => CallerStepCosts(s, a);
    case CallerUnlock(t) => CallerStepCosts(s, a);
    case Notify(t) => CallerStepCosts(s, a);
    case _ => WorkerStepCosts(s, a);
  }

  // A run in which every step is one of the threads' own and does something.
  ghost predicate Busy(s: System, actions: seq<Action>)
    decreases |actions|
  {
    actions == [] || (OwnStep(actions[0]) && Step(s, actions[0]) != s && Busy(Step(s, actions[0]), actions[1..]))
  }

  lemma {:induction false} BusyRunsEnd(s: System, actions: seq<Action>)
    requires Busy(s, actions)
    ensures |actions| + Left(Run(s, actions)) <= Left(s)
    decreases |actions|
  {
    if actions != [] {
      OwnStepCosts(s, actions[0]);
      hide Step, Left;
      BusyRunsEnd(Step(s, actions[0]), actions[1..]);
    }
  }

  lemma {:induction false} RunJoins(s: System, a: seq<Action>, b: seq<Action>)
    ensures Run(s, a + b) == Run(Run(s, a), b)
    decreases |a|
  {
    hide Step;
    if a == [] {
      assert a + b == b;
    } else {
      assert (a + b)[0] == a[0] && (a + b)[1..] == a[1..] + b;
      RunJoins(Step(s, a[0]), a[1..], b);
    }
  }

  /** Everything gets done: when no more callers come, then after any run the threads take at most Left more steps,
      in whatever order; and as soon as they can take no more, every transfer enqueued has been done and reported. */
  lemma EverythingGetsDone(setup: Setup, mem: Memories, before: seq<Action>, more: seq<Action>)
    requires Busy(Run(Start(setup, mem), before), more)
    ensures |more| <= Left(Run(Start(setup, mem), before))
    ensures var s := Run(Run(Start(setup, mem), before), more);
            (forall a | OwnStep(a) :: Step(s, a) == s) ==> s.enqueued == Items(s.reported) && s.callers == map[]
  {
    hide Step, Left, MutexInv, NotifyPending, Busy;
    BusyRunsEnd(Run(Start(setup, mem), before), more);
    var s := Run(Run(Start(setup, mem), before), more);
    RunJoins(Start(setup, mem), before, more);
    ReachableInv(setup, mem, before + more);
    if forall a | OwnStep(a) :: Step(s, a) == s {
      if !Drained(s) {
        var a := NeverStuck(setup, mem, before + more);
      }
    }
  }

  /** A run to the point where the threads can take no more step exists after every run. */
  lemma {:induction false} RunToRest(setup: Setup, mem: Memories, before: seq<Action>) returns (more: seq<Action>)
    ensures Busy(Run(Start(setup, mem), before), more)
    ensures Drained(Run(Run(Start(setup, mem), before), more))
    decreases Left(Run(Start(setup, mem), before))
  {
    hide Step, Left, Drained;
    more := [];
    var s := Run(Start(setup, mem), before);
    if !Drained(s) {
      var a := NeverStuck(setup, mem, before);
      OwnStepCosts(s, a);
      RunJoins(Start(setup, mem), before, [a]);
      assert [a][1..] == [];
      assert Run(s, [a]) == Run(Step(s, a), []) == Step(s, a);
      var rest := RunToRest(setup, mem, before + [a]);
      more := [a] + rest;
      assert more[1..] == rest;
    }
  }

  // What the transfers do to the memories

  predicate AllSucceeded(rs: seq<Report>) {
    forall i | 0 <= i < |rs| :: rs[i].status == 0
  }

  // The memories after some transfers, one after the other.
  function CopiedAll(setup: Setup, mem: Memories, items: seq<Item>): Memories
    decreases |items|
  {
    if items == [] then mem
    else Copied(setup, CopiedAll(setup, mem, items[..|items| - 1]), items[|items| - 1].work)
  }

  // So far.
  predicate MemoryInv(s: System, setup: Setup, mem: Memories) {
    s.setup == setup && (AllSucceeded(s.done) ==> s.mem == CopiedAll(setup, mem, Items(s.done)))
  }

  lemma MemoryStep(s: System, a: Action, setup: Setup, mem: Memories)
    requires MemoryInv(s, setup, mem)
    ensures MemoryInv(Step(s, a), setup, mem)
  {
    hide Copied;
    var s' := Step(s, a);
    if s'.done != s.done {
      assert s'.done == s.done + [Report(s.worker.item, a.status)];
      assert s'.done[|s.done|].status == a.status;
      assert forall i | 0 <= i < |s.done| :: s'.done[i] == s.done[i];
      assert Items(s'.done)[..|s.done|] == Items(s.done);
    }
  }

  lemma {:induction false} MemoryRun(s: System, actions: seq<Action>, setup: Setup, mem: Memories)
    requires MemoryInv(s, setup, mem)
    ensures MemoryInv(Run(s, actions), setup, mem)
    decreases |actions|
  {
    hide MemoryInv, Step;
    if actions != [] {
      MemoryStep(s, actions[0], setup, mem);
      MemoryRun(Step(s, actions[0]), actions[1..], setup, mem);
    }
  }

  /** What the queue is for: on every interleaving in which the transfers succeed, the memories are as the transfers
      done so far leave them, one after the other in the order enqueued; and when the threads can take no more step of
      their own, that is all the transfers enqueued. */
  lemma MemoryAsEnqueued(setup: Setup, mem: Memories, actions: seq<Action>)
    requires AllSucceeded(Run(Start(setup, mem), actions).done)
    ensures var s := Run(Start(setup, mem), actions);
            && Items(s.done) <= s.enqueued
            && s.mem == CopiedAll(setup, mem, Items(s.done))
            && ((forall a | OwnStep(a) :: Step(s, a) == s) ==> s.mem == CopiedAll(setup, mem, s.enqueued))
  {
    hide Step, MutexInv, NotifyPending, CopiedAll, AllSucceeded;
    var s := Run(Start(setup, mem), actions);
    ReachableInv(setup, mem, actions);
    StartMemory(setup, mem);
    MemoryRun(Start(setup, mem), actions, setup, mem);
    if forall a | OwnStep(a) :: Step(s, a) == s {
      if !Drained(s) {
        var a := NeverStuck(setup, mem, actions);
      }
      assert Items(s.done) == s.enqueued;
    }
  }

  lemma StartMemory(setup: Setup, mem: Memories)
    ensures MemoryInv(Start(setup, mem), setup, mem)
  {
  }
}
