/** The work queue against what the callers asked of it: nothing is lost on the way into the queue, nothing is made up,
    and when the threads stop, what was reported is what was asked. */
module DmaQueueCalls {
  import opened DmaTransfer
  import opened DmaQueue
  import opened Totals

  // The items of the calls in a run, told from the actions alone; a thread that is in a call cannot make another.
  function Asked(s: System, actions: seq<Action>): seq<Item>
    decreases |actions|
  {
    if actions == [] then []
    else
      (if actions[0].Enter? && actions[0].t !in s.callers then [actions[0].item] else [])
      + Asked(Step(s, actions[0]), actions[1..])
  }

  // The callers that have not pushed an item yet.
  predicate Holds(p: CallerPlace, x: Item) {
    (p.Entering? || p.Locked?) && p.item == x
  }

  function Holding(callers: map<nat, CallerPlace>, x: Item): map<nat, nat> {
    map t | t in callers :: if Holds(callers[t], x) then 1 else 0
  }

  // How many of an item are enqueued or on the way into the queue.
  ghost function Inside(s: System, x: Item): nat {
    multiset(s.enqueued)[x] + Total(Holding(s.callers, x))
  }

  lemma HoldingPut(callers: map<nat, CallerPlace>, t: nat, p: CallerPlace, x: Item)
    ensures Total(Holding(callers[t := p], x)) ==
            Total(Holding(callers, x)) - (if t in callers && Holds(callers[t], x) then 1 else 0)
            + (if Holds(p, x) then 1 else 0)
  {
    TotalPut(Holding(callers, x), t, if Holds(p, x) then 1 else 0);
    assert Holding(callers[t := p], x) == Holding(callers, x)[t := if Holds(p, x) then 1 else 0];
  }

  lemma HoldingGone(callers: map<nat, CallerPlace>, t: nat, x: Item)
    requires t in callers && !Holds(callers[t], x)
    ensures Total(Holding(callers - {t}, x)) == Total(Holding(callers, x))
  {
    TotalWithout(Holding(callers, x), t);
    assert Holding(callers - {t}, x) == Holding(callers, x) - {t};
  }

  lemma StepCounts(s: System, a: Action, x: Item)
    ensures Inside(Step(s, a), x) ==
            Inside(s, x) + (if a.Enter? && a.t !in s.callers && a.item == x then 1 else 0)
  {
    hide Holding;
    match a
    case Enter(t, item) => HoldingPut(s.callers, t, Entering(item), x);
    case CallerLock(t) =>
      if Step(s, a) != s {
        HoldingPut(s.callers, t, Locked(s.callers[t].item), x);
      }
    case Push(t) =>
      if Step(s, a) != s {
        HoldingPut(s.callers, t, Pushed, x);
      }
    case CallerUnlock(t) =>
      if Step(s, a) != s {
        HoldingPut(s.callers, t, Notifying, x);
      }
    case Notify(t) =>
      if Step(s, a) != s {
        HoldingGone(s.callers, t, x);
      }
    case _ =>
  }

  lemma {:induction false} RunCounts(s: System, actions: seq<Action>, x: Item)
    ensures Inside(Run(s, actions), x) == Inside(s, x) + multiset(Asked(s, actions))[x]
    decreases |actions|
  {
    hide Step, Inside;
    if actions != [] {
      StepCounts(s, actions[0], x);
      RunCounts(Step(s, actions[0]), actions[1..], x);
    }
  }

  /** On every run, of each item as many were asked for as are enqueued or still in the hands of a caller that is about
      to push. */
  lemma NothingLostOrMadeUp(setup: Setup, mem: Memories, actions: seq<Action>)
    ensures var s := Run(Start(setup, mem), actions);
            forall x :: multiset(Asked(Start(setup, mem), actions))[x]
                     == multiset(s.enqueued)[x] + Total(Holding(s.callers, x))
  {
    forall x ensures Inside(Run(Start(setup, mem), actions), x) == multiset(Asked(Start(setup, mem), actions))[x] {
      RunCounts(Start(setup, mem), actions, x);
      assert Holding(map[], x) == map[];
    }
  }

  /** When the threads can take no more step of their own, exactly what was asked for has been reported. */
  lemma AllAskedIsReported(setup: Setup, mem: Memories, actions: seq<Action>)
    requires var s := Run(Start(setup, mem), actions);
             forall a | OwnStep(a) :: Step(s, a) == s
    ensures var s := Run(Start(setup, mem), actions);
            multiset(Items(s.reported)) == multiset(Asked(Start(setup, mem), actions))
  {
    hide Step, MutexInv, NotifyPending, Run, Asked, Holding;
    var s := Run(Start(setup, mem), actions);
    ReachableInv(setup, mem, actions);
    if !Drained(s) {
      var a := NeverStuck(setup, mem, actions);
    }
    NothingLostOrMadeUp(setup, mem, actions);
    NobodyHolds();
    forall x ensures multiset(Items(s.reported))[x] == multiset(Asked(Start(setup, mem), actions))[x] {
      assert s.callers == map[] && Items(s.reported) == s.enqueued;
    }
  }

  lemma NobodyHolds()
    ensures forall x: Item :: Total(Holding(map[], x)) == 0
  {
    forall x: Item ensures Total(Holding(map[], x)) == 0 {
      assert Holding(map[], x) == map[];
    }
  }

  /** A wake-up without cause is possible whenever the worker sleeps, and it then takes the mutex again before it
      looks. */
  lemma SpuriousWakes(s: System)
    requires s.worker.Asleep? && s.mutex.Nobody? && s.queue == []
    ensures var awake := Step(s, SpuriousWake);
            var looking := Step(awake, Relock);
            awake != s && looking == s.(worker := Checking, mutex := Worker) && Step(looking, Check) == s
  {
  }
}
