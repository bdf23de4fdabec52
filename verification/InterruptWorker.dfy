/** The interrupt thread of the host driver, in interrupt mode: the owner starts it and stops it, any
    number of threads set the handler, and it calls the handler with the interrupt masked. */
module InterruptWorker {

  // A handler, or none, with the user data that goes with it.
  datatype Handler = NoHandler | Handler(fn: nat)
  datatype Binding = Binding(fn: Handler, userData: nat)

  const UNBOUND := Binding(NoHandler, 0)

  datatype WorkerPlace =
    | Stopped
    | Top                       // looks whether it is to go on
    | Waiting                   // polls, with a timeout
    | Woken                     // the mask is still to be disabled
    | Locking
    | Holding                   // the mutex; looks at the handler
    | InHandler(call: Binding)
    | Unmasking
    | Unlocking

  datatype OwnerPlace =
    | New                       // enable_interrupts has not been called yet
    | Idle                      // disable_interrupts has returned
    | Activating                // mask enabled
    | Spawning
    | Running
    | Notifying                 // told the worker to stop
    | Joining
    | Masking                   // the worker has been joined

  datatype SetterPlace =
    | Entering(b: Binding)
    | Locked(b: Binding)
    | HalfSet(b: Binding)       // fn is written, user data is not
    | Set

  datatype Holder = Nobody | Worker | Setter(id: nat)

  // bound: the set calls in the order they took effect. calls: what the worker called, each with the mask and
  // the number of set calls at that time. callsAtStop: how many calls there were when it was told to stop.
  datatype Call = Call(b: Binding, masked: bool, bindings: nat)

  datatype System = System(active: bool, masked: bool, mutex: Holder, fn: Handler, userData: nat,
                           worker: WorkerPlace, owner: OwnerPlace, setters: map<nat, SetterPlace>,
                           bound: seq<Binding>, calls: seq<Call>, callsAtStop: nat)

  datatype Action =
    | OwnerStep
    | WorkerStep
    | EnterSetter(t: nat, b: Binding)
    | SetterStep(t: nat)

  function Start(masked: bool): System {
    System(false, masked, Nobody, NoHandler, 0, Stopped, New, map[], [], [], 0)
  }

  function OwnerNext(s: System): System {
    match s.owner
    case New => s.(masked := false, owner := Activating)
    case Idle => s.(masked := false, owner := Activating)
    case Activating => s.(active := true, owner := Spawning)
    case Spawning => s.(worker := Top, owner := Running)
    case Running => s.(active := false, owner := Notifying, callsAtStop := |s.calls|)
    case Notifying => s.(owner := Joining)
    case Joining => if s.worker.Stopped? then s.(owner := Masking) else s
    case Masking => s.(masked := true, owner := Idle)
  }

  function WorkerNext(s: System): System {
    match s.worker
    case Stopped => s
    case Top => s.(worker := if s.active then Waiting else Stopped)
    case Waiting => s.(worker := Woken)
    case Woken => s.(masked := true, worker := Locking)
    case Locking => if s.mutex.Nobody? then s.(mutex := Worker, worker := Holding) else s
    case Holding =>
      if s.fn.NoHandler? then s.(worker := Unmasking)
      else
        var b := Binding(s.fn, s.userData);
        s.(worker := InHandler(b), calls := s.calls + [Call(b, s.masked, |s.bound|)])
    case InHandler(_) => s.(worker := Unmasking)
    case Unmasking => s.(masked := false, worker := Unlocking)
    case Unlocking => s.(mutex := Nobody, worker := Top)
  }

  function SetterNext(s: System, t: nat): System
    requires t in s.setters
  {
    match s.setters[t]
    case Entering(b) =>
      if s.mutex.Nobody? then s.(mutex := Setter(t), setters := s.setters[t := Locked(b)]) else s
    case Locked(b) => s.(fn := b.fn, setters := s.setters[t := HalfSet(b)])
    case HalfSet(b) => s.(userData := b.userData, bound := s.bound + [b], setters := s.setters[t := Set])
    case Set => s.(mutex := Nobody, setters := s.setters - {t})
  }

  function Step(s: System, a: Action): System {
    match a
    case OwnerStep => OwnerNext(s)
    case WorkerStep => WorkerNext(s)
    case EnterSetter(t, b) => if t in s.setters then s else s.(setters := s.setters[t := Entering(b)])
    case SetterStep(t) => if t in s.setters then SetterNext(s, t) else s
  }

  function Run(s: System, actions: seq<Action>): System
    decreases |actions|
  {
    if actions == [] then s else Run(Step(s, actions[0]), actions[1..])
  }

  // The binding that the last of the set calls made.
  function Latest(bound: seq<Binding>): Binding {
    if bound == [] then UNBOUND else bound[|bound| - 1]
  }

  predicate InsideLock(w: WorkerPlace) {
    w.Holding? || w.InHandler? || w.Unmasking? || w.Unlocking?
  }

  // The worker comes to a handler call without looking again whether it is to go on, if a handler is bound by then.
  predicate CallStillDue(s: System) {
    s.worker.Waiting? || s.worker.Woken? || s.worker.Locking? || (s.worker.Holding? && s.fn.Handler?)
  }

  ghost predicate MutexInv(s: System) {
    && (s.mutex.Worker? <==> InsideLock(s.worker))
    && (forall t | t in s.setters :: !s.setters[t].Entering? <==> s.mutex == Setter(t))
    && (s.mutex.Setter? ==> s.mutex.id in s.setters)
  }

  // The thread between the two assignments of set_kernel_interrupt.
  predicate HalfSetting(s: System) {
    s.mutex.Setter? && s.mutex.id in s.setters && s.setters[s.mutex.id].HalfSet?
  }

  // The handler in use, as far as the mutex protects it.
  predicate Bound(s: System) {
    && (if HalfSetting(s) then s.fn == s.setters[s.mutex.id].b.fn else Binding(s.fn, s.userData) == Latest(s.bound))
    && (s.worker.InHandler? ==> s.worker.call == Latest(s.bound))
  }

  ghost predicate BindingInv(s: System) {
    && Bound(s)
    && forall i | 0 <= i < |s.calls| :: CallOk(s.calls[i], s.bound)
  }

  // A call was made with the mask disabled, with what the latest set call before it had bound.
  ghost predicate CallOk(c: Call, bound: seq<Binding>) {
    && c.masked && c.b.fn.Handler?
    && 0 < c.bindings <= |bound| && c.b == bound[c.bindings - 1]
  }

  // The worker is between disabling and enabling the mask.
  predicate Masked(w: WorkerPlace) {
    w.Locking? || w.Holding? || w.InHandler? || w.Unmasking?
  }

  // Interrupts have been enabled, and the worker has not been joined.
  predicate Enabled(o: OwnerPlace) {
    o.Activating? || o.Spawning? || o.Running? || o.Notifying? || o.Joining?
  }

  ghost predicate MaskInv(s: System) {
    && (Masked(s.worker) ==> s.masked)
    && (Enabled(s.owner) ==> (s.masked <==> Masked(s.worker)))
    && (s.owner.Masking? ==> !s.masked)
    && (s.owner.Idle? ==> s.masked)
  }

  ghost predicate OwnerInv(s: System) {
    && (s.worker.Stopped? || s.owner.Running? || s.owner.Notifying? || s.owner.Joining?)
    && (s.active <==> s.owner.Spawning? || s.owner.Running?)
    && (s.owner.Running? ==> !s.worker.Stopped?)
    && (s.owner.Notifying? || s.owner.Joining? || s.owner.Masking? || s.owner.Idle? ==>
        |s.calls| + (if CallStillDue(s) then 1 else 0) <= s.callsAtStop + 1)
  }

  ghost predicate Inv(s: System) {
    MutexInv(s) && BindingInv(s) && MaskInv(s) && OwnerInv(s)
  }

  lemma SetterKeepsMutex(s: System, t: nat)
    requires MutexInv(s) && t in s.setters
    ensures MutexInv(SetterNext(s, t))
  {
  }

  lemma OthersKeepMutex(s: System, a: Action)
    requires MutexInv(s) && OwnerInv(s) && !a.SetterStep?
    ensures MutexInv(Step(s, a))
  {
    match a
    case OwnerStep =>
    case WorkerStep =>
    case EnterSetter(_, _) =>
  }

  lemma MutexStep(s: System, a: Action)
    requires MutexInv(s) && OwnerInv(s)
    ensures MutexInv(Step(s, a))
  {
    hide MutexInv, OwnerInv, SetterNext;
    if a.SetterStep? {
      if a.t in s.setters {
        SetterKeepsMutex(s, a.t);
      }
    } else {
      OthersKeepMutex(s, a);
    }
  }

  lemma SetterKeepsBound(s: System, t: nat)
    requires MutexInv(s) && Bound(s) && t in s.setters
    ensures Bound(SetterNext(s, t))
  {
    match s.setters[t]
    case Entering(_) =>
    case Locked(b) =>
      assert s.mutex == Setter(t);
    case HalfSet(b) =>
      assert s.mutex == Setter(t) && HalfSetting(s);
      assert SetterNext(s, t).bound == s.bound + [b];
    case Set =>
      assert s.mutex == Setter(t) && !HalfSetting(s);
  }

  lemma WorkerKeepsBound(s: System)
    requires MutexInv(s) && Bound(s)
    ensures Bound(WorkerNext(s))
  {
    var s' := WorkerNext(s);
    assert s'.setters == s.setters && s'.fn == s.fn && s'.userData == s.userData && s'.bound == s.bound;
    assert !HalfSetting(s) ==> !HalfSetting(s');
    assert HalfSetting(s) ==> s'.mutex == s.mutex && !s'.worker.InHandler?;
    hide MutexInv, Latest;
  }

  lemma OthersKeepBound(s: System, a: Action)
    requires MutexInv(s) && Bound(s) && (a.OwnerStep? || a.EnterSetter?)
    requires a.OwnerStep? ==> !OwnerNext(s).worker.InHandler? || OwnerNext(s).worker == s.worker
    ensures Bound(Step(s, a))
  {
    hide Latest;
  }

  lemma BindingStep(s: System, a: Action)
    requires MutexInv(s) && Bound(s)
    ensures Bound(Step(s, a))
  {
    hide MutexInv, Bound, SetterNext, WorkerNext;
    match a
    case OwnerStep => OthersKeepBound(s, a);
    case WorkerStep => WorkerKeepsBound(s);
    case EnterSetter(_, _) => OthersKeepBound(s, a);
    case SetterStep(t) =>
      if t in s.setters {
        SetterKeepsBound(s, t);
      }
  }

  // What a step does to the calls.
  lemma CallsGrow(s: System, a: Action)
    requires MutexInv(s) && Bound(s) && MaskInv(s)
    ensures var s' := Step(s, a);
            && s.bound <= s'.bound
            && (s'.calls == s.calls
                || (s.worker.Holding? && s.masked && s.fn.Handler? && Binding(s.fn, s.userData) == Latest(s.bound)
                    && s'.calls == s.calls + [Call(Binding(s.fn, s.userData), s.masked, |s.bound|)]
                    && s'.bound == s.bound))
  {
  }

  lemma CallsStep(s: System, a: Action)
    requires MutexInv(s) && BindingInv(s) && MaskInv(s)
    ensures var s' := Step(s, a);
            forall i | 0 <= i < |s'.calls| :: CallOk(s'.calls[i], s'.bound)
  {
    CallsGrow(s, a);
    hide CallOk, Bound, MutexInv, MaskInv, Step;
    var s' := Step(s, a);
    if s'.calls != s.calls {
      NewCallOk(s);
    }
    forall i | 0 <= i < |s.calls| ensures CallOk(s.calls[i], s'.bound) {
      StillOk(s.calls[i], s.bound, s'.bound);
    }
  }

  lemma StillOk(c: Call, bound: seq<Binding>, bound': seq<Binding>)
    requires CallOk(c, bound) && bound <= bound'
    ensures CallOk(c, bound')
  {
  }

  lemma NewCallOk(s: System)
    requires s.worker.Holding? && s.masked && s.fn.Handler? && Binding(s.fn, s.userData) == Latest(s.bound)
    ensures CallOk(Call(Binding(s.fn, s.userData), s.masked, |s.bound|), s.bound)
  {
  }

  lemma OwnerStepKeeps(s: System, a: Action)
    requires MutexInv(s) && MaskInv(s) && OwnerInv(s)
    ensures MaskInv(Step(s, a)) && OwnerInv(Step(s, a))
  {
  }

  lemma StepKeepsInv(s: System, a: Action)
    requires Inv(s)
    ensures Inv(Step(s, a))
  {
    hide MutexInv, MaskInv, OwnerInv, Step, CallOk, Bound;
    MutexStep(s, a);
    BindingStep(s, a);
    CallsStep(s, a);
    OwnerStepKeeps(s, a);
  }

  lemma {:induction false} RunKeepsInv(s: System, actions: seq<Action>)
    requires Inv(s)
    ensures Inv(Run(s, actions))
    decreases |actions|
  {
    if actions != [] {
      StepKeepsInv(s, actions[0]);
      RunKeepsInv(Step(s, actions[0]), actions[1..]);
    }
  }

  lemma StartInv(masked: bool)
    ensures Inv(Start(masked))
  {
  }

  /** On every interleaving, each call of the handler is made with the mask disabled and with the function and the
      user data that one set call bound, the latest before it; and while the handler runs the mask stays disabled
      and no set call takes effect. */
  lemma HandlerCallsAreSafe(masked: bool, actions: seq<Action>)
    ensures var s := Run(Start(masked), actions);
            && (forall i | 0 <= i < |s.calls| :: CallOk(s.calls[i], s.bound))
            && (s.worker.InHandler? ==> s.masked && s.mutex.Worker? && s.worker.call == Latest(s.bound))
  {
    StartInv(masked);
    RunKeepsInv(Start(masked), actions);
  }

  /** On every run the mask is enabled exactly when it should be: while interrupts are enabled, at all times but when
      the worker is between taking an interrupt and being done with it; and once disabled, not at all. */
  lemma MaskExactly(masked: bool, actions: seq<Action>)
    ensures var s := Run(Start(masked), actions);
            && (Enabled(s.owner) ==> (s.masked <==> Masked(s.worker)))
            && (s.owner.Masking? ==> !s.masked) && (s.owner.Idle? ==> s.masked)
            && (s.owner.New? ==> s.masked == masked)
  {
    StartInv(masked);
    RunKeepsInv(Start(masked), actions);
    NewRun(Start(masked), actions);
  }

  // Nobody touches the mask before interrupts are enabled for the first time.
  lemma {:induction false} NewRun(s: System, actions: seq<Action>)
    requires s.owner.New? ==> s.worker.Stopped?
    ensures Run(s, actions).owner.New? ==> s.owner.New? && Run(s, actions).masked == s.masked
    decreases |actions|
  {
    if actions != [] {
      NewRun(Step(s, actions[0]), actions[1..]);
    }
  }

  /** Once disable_interrupts has returned, the worker has stopped and the mask is disabled; after it was told to
      stop the worker called the handler at most once more. */
  lemma DisableStops(masked: bool, actions: seq<Action>)
    requires Run(Start(masked), actions).owner.Idle?
    ensures var s := Run(Start(masked), actions);
            s.worker.Stopped? && !s.active && s.masked && |s.calls| <= s.callsAtStop + 1
  {
    StartInv(masked);
    RunKeepsInv(Start(masked), actions);
  }

  const LATE: seq<Action> := [OwnerStep, WorkerStep, WorkerStep, WorkerStep, WorkerStep]

  /** That one call does happen, whenever the worker is told to stop while it waits: it does not look again between
      waking up and the call. */
  lemma LateCallHappens(s: System)
    requires Inv(s) && s.owner.Running? && s.worker.Waiting? && s.mutex.Nobody? && s.fn.Handler?
    ensures var s' := Run(s, LATE);
            && s'.owner.Notifying? && !s'.active && s'.callsAtStop == |s.calls|
            && s'.calls == s.calls + [Call(Latest(s.bound), true, |s.bound|)]
  {
    var s1 := Step(s, OwnerStep);
    var s2 := Step(s1, WorkerStep);
    var s3 := Step(s2, WorkerStep);
    var s4 := Step(s3, WorkerStep);
    var s5 := Step(s4, WorkerStep);
    assert s5.calls == s.calls + [Call(Latest(s.bound), true, |s.bound|)];
    assert s5.owner.Notifying? && !s5.active && s5.callsAtStop == |s.calls|;
    hide Step;
    assert LATE[1..][1..][1..][1..] == [WorkerStep];
    assert Run(s, LATE) == Run(s1, LATE[1..]) == Run(s2, LATE[1..][1..]) == Run(s3, LATE[1..][1..][1..])
        == Run(s4, [WorkerStep]) == Run(s5, []);
  }

  // So it stays until interrupts are enabled again.
  lemma {:induction false} QuietWhileIdle(s: System, actions: seq<Action>)
    requires Inv(s) && s.owner.Idle?
    requires OwnerStep !in actions
    ensures var s' := Run(s, actions);
            s'.worker.Stopped? && s'.masked && s'.calls == s.calls && s'.owner.Idle?
    decreases |actions|
  {
    if actions != [] {
      StepKeepsInv(s, actions[0]);
      QuietWhileIdle(Step(s, actions[0]), actions[1..]);
    }
  }

  // How many steps the worker takes until it stops, once told to.
  function StepsLeft(w: WorkerPlace): nat {
    match w
    case Stopped => 0
    case Top => 1
    case Unlocking => 2
    case Unmasking => 3
    case InHandler(_) => 4
    case Holding => 5
    case Locking => 6
    case Woken => 7
    case Waiting => 8
  }

  // The steps in which the worker gets on.
  function WorkerMoves(s: System, actions: seq<Action>): nat
    decreases |actions|
  {
    if actions == [] then 0
    else
      var s' := Step(s, actions[0]);
      (if actions[0].WorkerStep? && s' != s then 1 else 0) + WorkerMoves(s', actions[1..])
  }

  lemma JoinStep(s: System, a: Action)
    requires s.owner.Joining? && !s.active && a != OwnerStep
    ensures var s' := Step(s, a);
            && s'.owner.Joining? && !s'.active
            && StepsLeft(s'.worker) + (if a.WorkerStep? && s' != s then 1 else 0) <= StepsLeft(s.worker) <= 8
  {
  }

  /** While the owner waits in join, the worker gets on at most eight more times, whatever the setters do. */
  lemma {:induction false} JoinIsBounded(s: System, actions: seq<Action>)
    requires s.owner.Joining? && !s.active
    requires OwnerStep !in actions
    ensures WorkerMoves(s, actions) + StepsLeft(Run(s, actions).worker) <= StepsLeft(s.worker) <= 8
    decreases |actions|
  {
    JoinStep(s, WorkerStep);
    if actions != [] {
      JoinStep(s, actions[0]);
      hide Step, StepsLeft;
      JoinIsBounded(Step(s, actions[0]), actions[1..]);
    }
  }

  /** And it is never stuck: if it cannot get on, the setter that holds the mutex can, and has it for at most
      three more steps. */
  lemma JoinIsNeverStuck(s: System) returns (a: Action)
    requires Inv(s) && s.owner.Joining? && !s.worker.Stopped?
    ensures if a.WorkerStep? then StepsLeft(Step(s, a).worker) < StepsLeft(s.worker)
            else a.SetterStep? && s.mutex == Setter(a.t) && LockLeft(Step(s, a)) < LockLeft(s) <= 3
  {
    a := if s.worker.Locking? && s.mutex.Setter? then SetterStep(s.mutex.id) else WorkerStep;
  }

  function LockLeft(s: System): nat {
    if s.mutex.Setter? && s.mutex.id in s.setters then
      match s.setters[s.mutex.id]
      case Entering(_) => 0
      case Locked(_) => 3
      case HalfSet(_) => 2
      case Set => 1
    else 0
  }
}
