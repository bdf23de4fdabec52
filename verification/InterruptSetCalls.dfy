/** The handlers that the interrupt thread calls, against the set calls that were made. */
module InterruptSetCalls {
  import opened InterruptWorker
  import opened Totals

  // The bindings of the set calls in a run, told from the actions alone; a thread in a set call cannot make another.
  function Asked(s: System, actions: seq<Action>): seq<Binding>
    decreases |actions|
  {
    if actions == [] then []
    else
      (if actions[0].EnterSetter? && actions[0].t !in s.setters then [actions[0].b] else [])
      + Asked(Step(s, actions[0]), actions[1..])
  }

  // The set calls that have not taken effect yet.
  function Brings(p: SetterPlace, b: Binding): nat {
    if p == Entering(b) || p == Locked(b) || p == HalfSet(b) then 1 else 0
  }

  function Bringing(setters: map<nat, SetterPlace>, b: Binding): map<nat, nat> {
    map t | t in setters :: Brings(setters[t], b)
  }

  // How many set calls with a binding have taken effect or are about to.
  ghost function Inside(s: System, b: Binding): nat {
    multiset(s.bound)[b] + Total(Bringing(s.setters, b))
  }

  lemma BringingPut(setters: map<nat, SetterPlace>, t: nat, p: SetterPlace, b: Binding)
    ensures Total(Bringing(setters[t := p], b)) ==
            Total(Bringing(setters, b)) - (if t in setters then Brings(setters[t], b) else 0) + Brings(p, b)
  {
    TotalPut(Bringing(setters, b), t, Brings(p, b));
    assert Bringing(setters[t := p], b) == Bringing(setters, b)[t := Brings(p, b)];
  }

  lemma BringingGone(setters: map<nat, SetterPlace>, t: nat, b: Binding)
    requires t in setters && setters[t].Set?
    ensures Total(Bringing(setters - {t}, b)) == Total(Bringing(setters, b))
  {
    TotalWithout(Bringing(setters, b), t);
    assert Bringing(setters - {t}, b) == Bringing(setters, b) - {t};
  }

  lemma SetterCounts(s: System, t: nat, b: Binding)
    requires t in s.setters
    ensures Inside(SetterNext(s, t), b) == Inside(s, b)
  {
    hide Bringing;
    match s.setters[t]
    case Entering(x) => BringingPut(s.setters, t, Locked(x), b);
    case Locked(x) => BringingPut(s.setters, t, HalfSet(x), b);
    case HalfSet(x) => BringingPut(s.setters, t, Set, b);
    case Set => BringingGone(s.setters, t, b);
  }

  lemma StepCounts(s: System, a: Action, b: Binding)
    ensures Inside(Step(s, a), b) ==
            Inside(s, b) + (if a.EnterSetter? && a.t !in s.setters && a.b == b then 1 else 0)
  {
    hide Bringing, SetterNext;
    match a
    case OwnerStep =>
    case WorkerStep =>
    case EnterSetter(t, x) => BringingPut(s.setters, t, Entering(x), b);
    case SetterStep(t) =>
      if t in s.setters {
        SetterCounts(s, t, b);
      }
  }

  lemma {:induction false} RunCounts(s: System, actions: seq<Action>, b: Binding)
    ensures Inside(Run(s, actions), b) == Inside(s, b) + multiset(Asked(s, actions))[b]
    decreases |actions|
  {
    hide Step, Inside;
    if actions != [] {
      StepCounts(s, actions[0], b);
      RunCounts(Step(s, actions[0]), actions[1..], b);
    }
  }

  /** On every run the bindings that took effect, and those of set calls still under way, are the ones asked for. */
  lemma BoundIsAsked(masked: bool, actions: seq<Action>)
    ensures var s := Run(Start(masked), actions);
            forall b :: multiset(Asked(Start(masked), actions))[b]
                     == multiset(s.bound)[b] + Total(Bringing(s.setters, b))
  {
    forall b ensures Inside(Run(Start(masked), actions), b) == multiset(Asked(Start(masked), actions))[b] {
      RunCounts(Start(masked), actions, b);
      assert Bringing(map[], b) == map[];
    }
  }

  /** So whatever handler is called, with whatever user data, some set call of the run has asked for the two
      together. */
  lemma CallsWereAsked(masked: bool, actions: seq<Action>, i: nat)
    requires i < |Run(Start(masked), actions).calls|
    ensures Run(Start(masked), actions).calls[i].b in Asked(Start(masked), actions)
  {
    hide Asked, Run, Bringing;
    var c := Run(Start(masked), actions).calls[i];
    HandlerCallsAreSafe(masked, actions);
    BoundIsAsked(masked, actions);
    assert CallOk(c, Run(Start(masked), actions).bound);
    assert multiset(Run(Start(masked), actions).bound)[c.b] > 0;
  }
}
