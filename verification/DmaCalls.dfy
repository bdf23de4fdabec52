/** The descriptor handshake against what the threads asked of it: every call's own descriptor reaches the hardware,
    and every call returns. */
module DmaCalls {
  import opened DmaHandshake
  import opened Totals

  // The descriptors of the calls in a run, told from the actions alone; a thread that is in a call cannot make another.
  function Called(c: Channel, actions: seq<Action>): seq<Descriptor>
    decreases |actions|
  {
    if actions == [] then []
    else
      (if actions[0].Call? && At(c, actions[0].t).Outside? then [actions[0].d] else [])
      + Called(Step(c, actions[0]), actions[1..])
  }

  function Wants(p: Place, x: Descriptor): nat {
    if p == Wanting(x) then 1 else 0
  }

  function Wanted(places: map<nat, Place>, x: Descriptor): map<nat, nat> {
    map t | t in places :: Wants(places[t], x)
  }

  // How many of a descriptor have got the lock or are waiting for it.
  ghost function Inside(c: Channel, x: Descriptor): nat {
    multiset(c.asked)[x] + Total(Wanted(c.places, x))
  }

  lemma WantedPut(c: Channel, t: nat, p: Place, x: Descriptor)
    ensures Total(Wanted(c.places[t := p], x)) == Total(Wanted(c.places, x)) - Wants(At(c, t), x) + Wants(p, x)
  {
    TotalPut(Wanted(c.places, x), t, Wants(p, x));
    assert Wanted(c.places[t := p], x) == Wanted(c.places, x)[t := Wants(p, x)];
  }

  lemma StepCounts(c: Channel, a: Action, x: Descriptor)
    ensures Inside(Step(c, a), x) ==
            Inside(c, x) + (if a.Call? && At(c, a.t).Outside? && a.d == x then 1 else 0)
  {
    hide Wanted;
    var c' := Step(c, a);
    if !a.Complete? && c' != c {
      WantedPut(c, a.t, At(c', a.t), x);
      assert c'.places == c.places[a.t := At(c', a.t)];
    }
  }

  lemma {:induction false} RunCounts(c: Channel, actions: seq<Action>, x: Descriptor)
    ensures Inside(Run(c, actions), x) == Inside(c, x) + multiset(Called(c, actions))[x]
    decreases |actions|
  {
    hide Step, Inside;
    if actions != [] {
      StepCounts(c, actions[0], x);
      RunCounts(Step(c, actions[0]), actions[1..], x);
    }
  }

  /** On every run, of each descriptor as many were called for as have got the lock or still wait for it. */
  lemma NothingLostOrMadeUp(actions: seq<Action>)
    ensures var c := Run(IDLE, actions);
            forall x :: multiset(Called(IDLE, actions))[x] == multiset(c.asked)[x] + Total(Wanted(c.places, x))
  {
    forall x ensures Inside(Run(IDLE, actions), x) == multiset(Called(IDLE, actions))[x] {
      RunCounts(IDLE, actions, x);
      assert Wanted(map[], x) == map[];
    }
  }

  // Progress

  function PlaceLeft(p: Place): nat {
    match p
    case Outside => 0
    case Cleared(_, _) => 1
    case Seen(_, _) => 2
    case Waiting(_, _) => 3
    case DstWritten(_) => 5
    case SrcWritten(_) => 6
    case Locked(_) => 7
    case Wanting(_) => 8
  }

  function PlacesLeft(places: map<nat, Place>): map<nat, nat> {
    map t | t in places :: PlaceLeft(places[t])
  }

  // The steps that the threads and the hardware still have to take.
  ghost function Left(c: Channel): int {
    Total(PlacesLeft(c.places)) + |c.started| - c.completed
  }

  lemma PlaceMoves(c: Channel, t: nat, p: Place)
    ensures Total(PlacesLeft(c.places[t := p])) == Total(PlacesLeft(c.places)) - PlaceLeft(At(c, t)) + PlaceLeft(p)
  {
    TotalPut(PlacesLeft(c.places), t, PlaceLeft(p));
    assert PlacesLeft(c.places[t := p]) == PlacesLeft(c.places)[t := PlaceLeft(p)];
  }

  lemma StepCosts(c: Channel, a: Action)
    requires !a.Call? && Step(c, a) != c
    ensures Left(Step(c, a)) < Left(c)
  {
    hide PlacesLeft;
    var c' := Step(c, a);
    if !a.Complete? {
      PlaceMoves(c, a.t, At(c', a.t));
      assert c'.places == c.places[a.t := At(c', a.t)];
    }
  }

  // A run without new calls in which every step does something.
  ghost predicate Busy(c: Channel, actions: seq<Action>)
    decreases |actions|
  {
    actions == [] || (!actions[0].Call? && Step(c, actions[0]) != c && Busy(Step(c, actions[0]), actions[1..]))
  }

  lemma {:induction false} BusyRunsEnd(c: Channel, actions: seq<Action>)
    requires Busy(c, actions)
    ensures |actions| + Left(Run(c, actions)) <= Left(c)
    decreases |actions|
  {
    if actions != [] {
      StepCosts(c, actions[0]);
      hide Step, Left;
      BusyRunsEnd(Step(c, actions[0]), actions[1..]);
    }
  }

  // As long as a call is under way, its thread, another or the hardware can take a step.
  lemma SomeoneCanGo(c: Channel, t: nat) returns (a: Action)
    requires Inv(c) && !At(c, t).Outside?
    ensures !a.Call? && Step(c, a) != c
  {
    if c.holder.Nobody? {
      a := Lock(t);
      assert Step(c, a).holder == Thread(t);
    } else {
      var h := c.holder.id;
      a := match At(c, h)
           case Locked(_) => WriteSrc(h)
           case SrcWritten(_) => WriteDst(h)
           case DstWritten(_) => WriteLen(h)
           case Waiting(_, _) => if c.word then Poll(h) else Complete
           case Seen(_, _) => ClearWord(h)
           case _ => Unlock(h);
      assert a.Complete? || At(Step(c, a), h) != At(c, h);
    }
  }

  lemma {:induction false} RunJoins(c: Channel, a: seq<Action>, b: seq<Action>)
    ensures Run(c, a + b) == Run(Run(c, a), b)
    decreases |a|
  {
    hide Step;
    if a == [] {
      assert a + b == b;
    } else {
      assert (a + b)[0] == a[0] && (a + b)[1..] == a[1..] + b;
      RunJoins(Step(c, a[0]), a[1..], b);
    }
  }

  lemma ReachableInv(actions: seq<Action>)
    ensures Inv(Run(IDLE, actions))
  {
    RunKeepsInv(IDLE, actions);
  }

  /** Every call returns: without new calls the threads and the hardware take at most Left more steps, in whatever
      order; and when they can take no more, no thread is in a call, the hardware has taken exactly the descriptors
      called for, and each of them has completed and its call has returned. */
  lemma EveryCallReturns(before: seq<Action>, more: seq<Action>)
    requires Busy(Run(IDLE, before), more)
    ensures |more| <= Left(Run(IDLE, before))
    ensures var c := Run(Run(IDLE, before), more);
            (forall a: Action | !a.Call? :: Step(c, a) == c) ==>
              && (forall t :: At(c, t).Outside?)
              && multiset(c.started) == multiset(Called(IDLE, before + more))
              && |c.returned| == c.completed == |c.started|
  {
    hide Step, Busy, At;
    BusyRunsEnd(Run(IDLE, before), more);
    RunJoins(IDLE, before, more);
    var c := Run(Run(IDLE, before), more);
    ReachableInv(before + more);
    NotNegative(c);
    if forall a: Action | !a.Call? :: Step(c, a) == c {
      forall t ensures At(c, t).Outside? {
        if !At(c, t).Outside? {
          var a := SomeoneCanGo(c, t);
        }
      }
      AtRest(c);
      NothingLostOrMadeUp(before + more);
      forall x ensures multiset(c.started)[x] == multiset(Called(IDLE, before + more))[x] {
        NobodyWants(c, x);
      }
    }
  }

  /** Such a run exists from every reachable state, however far the calls have come. */
  lemma {:induction false} RunToRest(c: Channel) returns (more: seq<Action>)
    requires Inv(c)
    ensures Busy(c, more) && forall t :: At(Run(c, more), t).Outside?
    decreases if Left(c) < 0 then 0 else Left(c)
  {
    more := [];
    if t :| !At(c, t).Outside? {
      var a := SomeoneCanGo(c, t);
      StepCosts(c, a);
      StepKeepsInv(c, a);
      NotNegative(c);
      var rest := RunToRest(Step(c, a));
      more := [a] + rest;
      assert more[1..] == rest;
    }
  }

  lemma NotNegative(c: Channel)
    requires Inv(c)
    ensures Left(c) >= 0
  {
    assert c.completed <= |c.started|;
  }

  lemma AtRest(c: Channel)
    requires Inv(c) && forall t :: At(c, t).Outside?
    ensures c.holder.Nobody? && c.asked == c.started && |c.returned| == c.completed == |c.started|
  {
    var h := if c.holder.Thread? then c.holder.id else 0;
    assert At(c, h).Outside?;
  }

  lemma {:induction false} NobodyWants(c: Channel, x: Descriptor)
    requires forall t :: At(c, t).Outside?
    ensures Total(Wanted(c.places, x)) == 0
  {
    forall t | t in c.places ensures Wanted(c.places, x)[t] == 0 {
      assert At(c, t).Outside?;
    }
    AllZero(Wanted(c.places, x));
  }

  lemma {:induction false} AllZero(m: map<nat, nat>)
    requires forall k | k in m :: m[k] == 0
    ensures Total(m) == 0
    decreases |m|
  {
    if m != map[] {
      var k :| k in m;
      TotalWithout(m, k);
      AllZero(m - {k});
    }
  }
}
