/** Stopping the interrupt thread: exactly when one more handler call comes, and that disable_interrupts returns. */
module InterruptShutdown {
  import opened InterruptWorker
  import opened Totals

  // disable_interrupts has told the worker to stop and has not returned yet.
  predicate ShuttingDown(s: System) {
    s.owner.Notifying? || s.owner.Joining? || s.owner.Masking?
  }

  lemma {:induction false} RunJoins(s: System, a: seq<Action>, b: seq<Action>)
    ensures Run(s, a + b) == Run(Run(s, a), b)
    decreases |a|
  {
    hide Step;
    if a == [] {
      assert a + b == b;
    } else {
      assert (a + b)[0] == a[0] && (a + b)[1..] == a[1..] + b;
      RunJoins(Step(s, a[0]), a[1..], b);
    }
  }

  // The late call

  lemma NoneDueStep(s: System, a: Action)
    requires Inv(s) && ShuttingDown(s) && !CallStillDue(s) && a != OwnerStep
    ensures var s' := Step(s, a);
            ShuttingDown(s') && !CallStillDue(s') && s'.calls == s.calls
  {
    hide BindingInv, MaskInv;
  }

  // A call that is not due any more does not come.
  lemma {:induction false} NoneDueNoneComes(s: System, actions: seq<Action>)
    requires Inv(s) && ShuttingDown(s) && !CallStillDue(s)
    requires OwnerStep !in actions
    ensures Run(s, actions).calls == s.calls
    decreases |actions|
  {
    if actions != [] {
      NoneDueStep(s, actions[0]);
      StepKeepsInv(s, actions[0]);
      hide Inv, Step, CallStillDue, ShuttingDown;
      NoneDueNoneComes(Step(s, actions[0]), actions[1..]);
    }
  }

  lemma {:induction false} Fresh(used: set<nat>) returns (t: nat)
    ensures forall u | u in used :: u < t
  {
    t := 0;
    if used != {} {
      var u :| u in used;
      var v := Fresh(used - {u});
      t := if v > u then v else u + 1;
      assert forall w | w in used :: w == u || w in used - {u};
    }
  }

  // A thread that binds a handler, while nobody has the mutex.
  function SetCall(t: nat, b: Binding): seq<Action> {
    [EnterSetter(t, b)] + ([SetterStep(t)] + ([SetterStep(t)] + ([SetterStep(t)] + [SetterStep(t)])))
  }

  lemma SetCallBinds(s: System, t: nat, b: Binding)
    requires s.mutex.Nobody? && t !in s.setters
    ensures var s' := Run(s, SetCall(t, b));
            s' == s.(fn := b.fn, userData := b.userData, bound := s.bound + [b])
  {
    var s1 := Step(s, EnterSetter(t, b));
    var s2 := Step(s1, SetterStep(t));
    var s3 := Step(s2, SetterStep(t));
    var s4 := Step(s3, SetterStep(t));
    var s5 := Step(s4, SetterStep(t));
    assert s4.setters - {t} == s.setters;
    hide Step;
    RunOne(s, EnterSetter(t, b));
    RunOne(s1, SetterStep(t));
    RunOne(s2, SetterStep(t));
    RunOne(s3, SetterStep(t));
    RunOne(s4, SetterStep(t));
    RunJoins(s, [EnterSetter(t, b)], [SetterStep(t)] + ([SetterStep(t)] + ([SetterStep(t)] + [SetterStep(t)])));
    RunJoins(s1, [SetterStep(t)], [SetterStep(t)] + ([SetterStep(t)] + [SetterStep(t)]));
    RunJoins(s2, [SetterStep(t)], [SetterStep(t)] + [SetterStep(t)]);
    RunJoins(s3, [SetterStep(t)], [SetterStep(t)]);
  }

  lemma RunOne(s: System, a: Action)
    ensures Run(s, [a]) == Step(s, a)
  {
    hide Step;
    assert [a][1..] == [];
    assert Run(Step(s, a), []) == Step(s, a);
  }

  // One step in front of a schedule.
  lemma RunFirst(s: System, a: Action, rest: seq<Action>)
    ensures Run(s, [a] + rest) == Run(Step(s, a), rest)
  {
    hide Step;
    RunOne(s, a);
    RunJoins(s, [a], rest);
  }

  // From the free mutex: bind a handler if there is none, take the mutex, call.
  lemma CallFromLocking(s: System) returns (actions: seq<Action>)
    requires s.worker.Locking? && s.mutex.Nobody?
    ensures OwnerStep !in actions && |Run(s, actions).calls| > |s.calls|
  {
    var t := Fresh(s.setters.Keys);
    var b := Binding(Handler(0), 0);
    var bind := if s.fn.Handler? then [] else SetCall(t, b);
    var s0 := Run(s, bind);
    assert s0.worker.Locking? && s0.mutex.Nobody? && s0.fn.Handler? && s0.calls == s.calls by {
      if s.fn.NoHandler? {
        SetCallBinds(s, t, b);
      }
    }
    actions := bind + ([WorkerStep] + [WorkerStep]);
    var s1 := Step(s0, WorkerStep);
    RunJoins(s, bind, [WorkerStep] + [WorkerStep]);
    RunFirst(s0, WorkerStep, [WorkerStep]);
    RunOne(s1, WorkerStep);
  }

  // A schedule on which the call comes.
  lemma {:induction false} CallComes(s: System) returns (actions: seq<Action>)
    requires Inv(s) && CallStillDue(s)
    ensures OwnerStep !in actions && |Run(s, actions).calls| > |s.calls|
    decreases StepsLeft(s.worker), LockLeft(s)
  {
    if s.worker.Holding? {
      actions := [WorkerStep];
      RunOne(s, WorkerStep);
    } else if s.worker.Locking? && s.mutex.Nobody? {
      actions := CallFromLocking(s);
    } else {
      var a := if s.worker.Locking? then SetterStep(s.mutex.id) else WorkerStep;
      DueStep(s, a);
      StepKeepsInv(s, a);
      var rest := CallComes(Step(s, a));
      actions := [a] + rest;
      RunFirst(s, a, rest);
    }
  }

  lemma DueStep(s: System, a: Action)
    requires Inv(s) && CallStillDue(s) && !s.worker.Holding? && !(s.worker.Locking? && s.mutex.Nobody?)
    requires s.worker.Locking? ==> s.mutex.Setter?
    requires a == if s.worker.Locking? then SetterStep(s.mutex.id) else WorkerStep
    ensures var s' := Step(s, a);
            && CallStillDue(s') && s'.calls == s.calls
            && (StepsLeft(s'.worker) < StepsLeft(s.worker)
                || (s'.worker == s.worker && LockLeft(s') < LockLeft(s)))
  {
    hide BindingInv, MaskInv, OwnerInv;
  }

  /** After the worker was told to stop, one more handler call can come if and only if it has not come past the place
      where it looks at the handler, or is there and finds one. */
  lemma LateCallExactlyWhen(s: System)
    requires Inv(s) && ShuttingDown(s)
    ensures (exists actions :: OwnerStep !in actions && Run(s, actions).calls != s.calls) <==> CallStillDue(s)
  {
    if CallStillDue(s) {
      var actions := CallComes(s);
    } else {
      forall actions | OwnerStep !in actions ensures Run(s, actions).calls == s.calls {
        NoneDueNoneComes(s, actions);
      }
    }
  }

  /** Told by the place where the worker is at the moment it is told to stop. */
  lemma LateCallAfterStop(masked: bool, actions: seq<Action>)
    requires Run(Start(masked), actions).owner.Running?
    ensures var s := Run(Start(masked), actions);
            var s' := Step(s, OwnerStep);
            && ShuttingDown(s') && s'.callsAtStop == |s'.calls|
            && ((exists more :: OwnerStep !in more && Run(s', more).calls != s'.calls) <==> CallStillDue(s))
  {
    StartInv(masked);
    RunKeepsInv(Start(masked), actions);
    var s := Run(Start(masked), actions);
    StepKeepsInv(s, OwnerStep);
    LateCallExactlyWhen(Step(s, OwnerStep));
  }

  /** Told to stop before its first step, the worker makes no call: it looks before it waits. */
  lemma ToldAtOnce(s: System, actions: seq<Action>)
    requires Inv(s) && s.owner.Spawning? && OwnerStep !in actions
    ensures var s' := Step(Step(s, OwnerStep), OwnerStep);
            ShuttingDown(s') && Run(s', actions).calls == s.calls
  {
    StepKeepsInv(s, OwnerStep);
    StepKeepsInv(Step(s, OwnerStep), OwnerStep);
    NoneDueNoneComes(Step(Step(s, OwnerStep), OwnerStep), actions);
  }

  // The end of the shutdown

  function SetterCost(p: SetterPlace): nat {
    match p
    case Entering(_) => 4
    case Locked(_) => 3
    case HalfSet(_) => 2
    case Set => 1
  }

  function SetterCosts(setters: map<nat, SetterPlace>): map<nat, nat> {
    map t | t in setters :: SetterCost(setters[t])
  }

  lemma SetterMoves(setters: map<nat, SetterPlace>, t: nat, p: SetterPlace)
    requires t in setters
    ensures Total(SetterCosts(setters[t := p])) == Total(SetterCosts(setters)) - SetterCost(setters[t]) + SetterCost(p)
  {
    TotalUpdated(SetterCosts(setters), t, SetterCost(p));
    assert SetterCosts(setters[t := p]) == SetterCosts(setters)[t := SetterCost(p)];
  }

  lemma SetterLeaves(setters: map<nat, SetterPlace>, t: nat)
    requires t in setters
    ensures Total(SetterCosts(setters - {t})) == Total(SetterCosts(setters)) - SetterCost(setters[t])
  {
    TotalWithout(SetterCosts(setters), t);
    assert SetterCosts(setters - {t}) == SetterCosts(setters) - {t};
  }

  function OwnerCost(p: OwnerPlace): nat {
    match p
    case Notifying => 3
    case Joining => 2
    case Masking => 1
    case _ => 0
  }

  // The steps that the three kinds of threads still have to take.
  ghost function Left(s: System): nat {
    OwnerCost(s.owner) + StepsLeft(s.worker) + Total(SetterCosts(s.setters))
  }

  // A run during the shutdown, without new set calls, in which every step does something.
  ghost predicate Stopping(s: System, actions: seq<Action>)
    decreases |actions|
  {
    actions == [] ||
    (ShuttingDown(s) && !actions[0].EnterSetter? && Step(s, actions[0]) != s
     && Stopping(Step(s, actions[0]), actions[1..]))
  }

  lemma SetterStepCosts(s: System, t: nat)
    requires t in s.setters && SetterNext(s, t) != s
    ensures Total(SetterCosts(SetterNext(s, t).setters)) == Total(SetterCosts(s.setters)) - 1
  {
    hide SetterCosts;
    match s.setters[t]
    case Entering(b) => SetterMoves(s.setters, t, Locked(b));
    case Locked(b) => SetterMoves(s.setters, t, HalfSet(b));
    case HalfSet(b) => SetterMoves(s.setters, t, Set);
    case Set => SetterLeaves(s.setters, t);
  }

  lemma OwnerStepCosts(s: System)
    requires ShuttingDown(s) && OwnerNext(s) != s
    ensures Left(OwnerNext(s)) < Left(s) && (ShuttingDown(OwnerNext(s)) || OwnerNext(s).owner.Idle?)
  {
    hide SetterCosts, Total, StepsLeft;
  }

  lemma WorkerStepCosts(s: System)
    requires ShuttingDown(s) && !s.active && WorkerNext(s) != s
    ensures Left(WorkerNext(s)) < Left(s) && ShuttingDown(WorkerNext(s))
  {
    assert StepsLeft(WorkerNext(s).worker) < StepsLeft(s.worker) && WorkerNext(s).setters == s.setters
        && WorkerNext(s).owner == s.owner;
    hide StepsLeft, WorkerNext;
    hide SetterCosts, Total, OwnerCost;
  }

  lemma StoppingStepCosts(s: System, a: Action)
    requires Inv(s) && ShuttingDown(s) && !a.EnterSetter? && Step(s, a) != s
    ensures Left(Step(s, a)) < Left(s)
    ensures ShuttingDown(Step(s, a)) || Step(s, a).owner.Idle?
  {
    hide BindingInv, MutexInv, MaskInv, SetterCosts, Total, OwnerCost, OwnerNext, WorkerNext, StepsLeft, SetterCost;
    match a
    case OwnerStep => OwnerStepCosts(s);
    case WorkerStep => WorkerStepCosts(s);
    case SetterStep(t) => SetterStepCosts(s, t);
  }

  lemma {:induction false} StoppingEnds(s: System, actions: seq<Action>)
    requires Inv(s) && ShuttingDown(s) && Stopping(s, actions)
    ensures var s' := Run(s, actions);
            Inv(s') && (ShuttingDown(s') || s'.owner.Idle?) && |actions| + Left(s') <= Left(s)
    decreases |actions|
  {
    if actions != [] {
      StoppingStepCosts(s, actions[0]);
      StepKeepsInv(s, actions[0]);
      hide Inv, Step, Left, ShuttingDown;
      if actions[1..] != [] {
        StoppingEnds(Step(s, actions[0]), actions[1..]);
      } else {
        assert Run(Step(s, actions[0]), actions[1..]) == Step(s, actions[0]);
      }
    }
  }

  // During the shutdown the owner, the worker or the setter that has the mutex can take a step.
  lemma SomeoneCanGo(s: System) returns (a: Action)
    requires Inv(s) && ShuttingDown(s)
    ensures !a.EnterSetter? && Step(s, a) != s
  {
    hide BindingInv, MaskInv;
    if !s.owner.Joining? || s.worker.Stopped? {
      a := OwnerStep;
    } else if s.worker.Locking? && s.mutex.Setter? {
      a := SetterStep(s.mutex.id);
      assert s.setters[s.mutex.id].Set? ==> s.mutex.id !in Step(s, a).setters;
    } else {
      a := WorkerStep;
    }
  }

  /** disable_interrupts returns: from any state of a shutdown, unless new set calls come, the threads take at most Left
      steps, in whatever order; and when they can take no more, or it has returned before, the worker has stopped, the
      mask is disabled and at most one more handler call was made. */
  lemma DisableReturns(s: System, actions: seq<Action>)
    requires Inv(s) && ShuttingDown(s) && Stopping(s, actions)
    ensures |actions| <= Left(s)
    ensures var s' := Run(s, actions);
            (forall a: Action | !a.EnterSetter? :: Step(s', a) == s') || s'.owner.Idle? ==>
              s'.owner.Idle? && s'.worker.Stopped? && s'.masked && |s'.calls| <= s'.callsAtStop + 1
  {
    hide BindingInv, MutexInv, Step, Stopping, Left;
    StoppingEnds(s, actions);
    var s' := Run(s, actions);
    if ShuttingDown(s') {
      var a := SomeoneCanGo(s');
    }
  }

  /** A run to the return exists from every state of a shutdown. */
  lemma {:induction false} RunToReturn(s: System) returns (actions: seq<Action>)
    requires Inv(s) && ShuttingDown(s)
    ensures Stopping(s, actions) && Run(s, actions).owner.Idle?
    decreases Left(s)
  {
    hide Inv, Left, Step;
    var a := SomeoneCanGo(s);
    StoppingStepCosts(s, a);
    StepKeepsInv(s, a);
    var s' := Step(s, a);
    var rest := [];
    if ShuttingDown(s') {
      rest := RunToReturn(s');
    }
    actions := [a] + rest;
    assert actions[1..] == rest;
  }
}
