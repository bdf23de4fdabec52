/** The descriptor handshake of the host driver: any number of threads hand descriptors to one DMA
    channel through three registers and wait for its completion word, under one lock. The channel is
    alive: register writes succeed and every descriptor completes with one write of the word. */
module DmaHandshake {

  datatype Descriptor = Descriptor(src: nat, dst: nat, len: nat)

  // Where a thread is in its call; ticket numbers the descriptor it has started.
  datatype Place =
    | Outside
    | Wanting(d: Descriptor)
    | Locked(d: Descriptor)
    | SrcWritten(d: Descriptor)
    | DstWritten(d: Descriptor)
    | Waiting(d: Descriptor, ticket: nat)
    | Seen(d: Descriptor, ticket: nat)
    | Cleared(d: Descriptor, ticket: nat)

  datatype Holder = Nobody | Thread(id: nat)

  // word: the completion word (f2h: the magic number, h2f: the event counter) is set.
  // asked, started, returned record calls in the order they got the lock, what the hardware took, and finished calls.
  datatype Channel = Channel(holder: Holder, places: map<nat, Place>, csrSrc: nat, csrDst: nat, word: bool,
                             asked: seq<Descriptor>, started: seq<Descriptor>, completed: nat, returned: seq<nat>)

  datatype Action =
    | Call(t: nat, d: Descriptor)
    | Lock(t: nat)
    | WriteSrc(t: nat)
    | WriteDst(t: nat)
    | WriteLen(t: nat)
    | Complete
    | Poll(t: nat)
    | ClearWord(t: nat)
    | Unlock(t: nat)

  const IDLE := Channel(Nobody, map[], 0, 0, false, [], [], 0, [])

  function At(c: Channel, t: nat): Place {
    if t in c.places then c.places[t] else Outside
  }

  function Goes(c: Channel, t: nat, p: Place): Channel {
    c.(places := c.places[t := p])
  }

  // One atomic step of a thread or of the hardware; a step that is not possible changes nothing.
  function Step(c: Channel, a: Action): Channel {
    match a
    case Call(t, d) => if At(c, t).Outside? then Goes(c, t, Wanting(d)) else c
    case Lock(t) =>
      if At(c, t).Wanting? && c.holder.Nobody?
      then Goes(c, t, Locked(At(c, t).d)).(holder := Thread(t), asked := c.asked + [At(c, t).d]) else c
    case WriteSrc(t) => if At(c, t).Locked? then Goes(c, t, SrcWritten(At(c, t).d)).(csrSrc := At(c, t).d.src) else c
    case WriteDst(t) =>
      if At(c, t).SrcWritten? then Goes(c, t, DstWritten(At(c, t).d)).(csrDst := At(c, t).d.dst) else c
    case WriteLen(t) =>
      // Writing the length makes the hardware take what is in the three registers.
      if At(c, t).DstWritten?
      then
        var taken := Descriptor(c.csrSrc, c.csrDst, At(c, t).d.len);
        Goes(c, t, Waiting(At(c, t).d, |c.started|)).(started := c.started + [taken])
      else c
    case Complete => if c.completed < |c.started| then c.(completed := c.completed + 1, word := true) else c
    case Poll(t) => if At(c, t).Waiting? && c.word then Goes(c, t, Seen(At(c, t).d, At(c, t).ticket)) else c
    case ClearWord(t) => if At(c, t).Seen? then Goes(c, t, Cleared(At(c, t).d, At(c, t).ticket)).(word := false) else c
    case Unlock(t) =>
      if At(c, t).Cleared?
      then Goes(c, t, Outside).(holder := Nobody, returned := c.returned + [At(c, t).ticket]) else c
  }

  function Run(c: Channel, actions: seq<Action>): Channel
    decreases |actions|
  {
    if actions == [] then c else Run(Step(c, actions[0]), actions[1..])
  }

  // What the holder's place says about the registers, the hardware and the completion word.
  predicate HolderInv(c: Channel, p: Place) {
    match p
    case Locked(d) => Quiet(c) && |c.asked| == |c.started| + 1 && c.asked[|c.started|] == d
    case SrcWritten(d) => Quiet(c) && |c.asked| == |c.started| + 1 && c.asked[|c.started|] == d && c.csrSrc == d.src
    case DstWritten(d) =>
      Quiet(c) && |c.asked| == |c.started| + 1 && c.asked[|c.started|] == d && c.csrSrc == d.src && c.csrDst == d.dst
    case Waiting(d, k) =>
      && |c.asked| == |c.started| == k + 1 == |c.returned| + 1 && c.started[k] == d
      && (c.completed == if c.word then k + 1 else k)
    case Seen(d, k) =>
      && |c.asked| == |c.started| == k + 1 == |c.returned| + 1 && c.started[k] == d
      && c.completed == k + 1
    case Cleared(d, k) =>
      && |c.asked| == |c.started| == k + 1 == |c.returned| + 1 && c.started[k] == d
      && c.completed == k + 1 && !c.word
    case _ => false
  }

  // No descriptor outstanding, nothing to see, every started call finished.
  predicate Quiet(c: Channel) {
    c.completed == |c.started| == |c.returned| && !c.word
  }

  predicate Inside(p: Place) { !p.Outside? && !p.Wanting? }

  ghost predicate Inv(c: Channel) {
    && c.started <= c.asked
    && (forall i | 0 <= i < |c.returned| :: c.returned[i] == i)
    && (c.holder.Nobody? ==> Quiet(c) && c.asked == c.started)
    && (c.holder.Thread? ==> HolderInv(c, At(c, c.holder.id)))
    && (forall t | t in c.places && Inside(c.places[t]) :: c.holder == Thread(t))
  }

  lemma CallKeepsInv(c: Channel, t: nat, d: Descriptor)
    requires Inv(c)
    ensures Inv(Step(c, Call(t, d)))
  {
  }

  lemma LockKeepsInv(c: Channel, t: nat)
    requires Inv(c)
    ensures Inv(Step(c, Lock(t)))
  {
  }

  lemma CompleteKeepsInv(c: Channel)
    requires Inv(c)
    ensures Inv(Step(c, Complete))
  {
  }

  // The steps between taking the lock and seeing the word.
  lemma WriteKeepsInv(c: Channel, a: Action)
    requires Inv(c) && (a.WriteSrc? || a.WriteDst? || a.WriteLen?)
    ensures Inv(Step(c, a))
  {
  }

  lemma FinishKeepsInv(c: Channel, a: Action)
    requires Inv(c) && (a.Poll? || a.ClearWord? || a.Unlock?)
    ensures Inv(Step(c, a))
  {
  }

  lemma StepKeepsInv(c: Channel, a: Action)
    requires Inv(c)
    ensures Inv(Step(c, a))
  {
    hide Inv, Step;
    match a
    case Call(t, d) => CallKeepsInv(c, t, d);
    case Lock(t) => LockKeepsInv(c, t);
    case Complete => CompleteKeepsInv(c);
    case WriteSrc(_) => WriteKeepsInv(c, a);
    case WriteDst(_) => WriteKeepsInv(c, a);
    case WriteLen(_) => WriteKeepsInv(c, a);
    case Poll(_) => FinishKeepsInv(c, a);
    case ClearWord(_) => FinishKeepsInv(c, a);
    case Unlock(_) => FinishKeepsInv(c, a);
  }

  lemma {:induction false} RunKeepsInv(c: Channel, actions: seq<Action>)
    requires Inv(c)
    ensures Inv(Run(c, actions))
    decreases |actions|
  {
    hide Inv, Step;
    if actions != [] {
      StepKeepsInv(c, actions[0]);
      RunKeepsInv(Step(c, actions[0]), actions[1..]);
    }
  }

  /** On every interleaving of any number of threads and the hardware: the registers the hardware takes always
      hold the three values of one call, the calls in the order they got the lock; at most one descriptor is
      outstanding; and calls return in that order, each after its own descriptor has completed. */
  lemma OneCallAtATime(actions: seq<Action>)
    ensures var c := Run(IDLE, actions);
            && c.started <= c.asked && |c.asked| <= |c.started| + 1
            && c.completed <= |c.started| <= c.completed + 1
            && |c.returned| <= c.completed
            && (forall i | 0 <= i < |c.returned| :: c.returned[i] == i)
            && (forall t | t in c.places && Inside(c.places[t]) :: c.holder == Thread(t))
  {
    RunKeepsInv(IDLE, actions);
  }

  /** A call returns only on the completion of its own descriptor: when it leaves, its descriptor is the
      last one the hardware took, that one has completed, and the word is clear for the next call. */
  lemma ReturnsOnOwnCompletion(actions: seq<Action>, t: nat)
    requires At(Run(IDLE, actions), t).Cleared?
    ensures var c := Run(IDLE, actions);
            var p := At(c, t);
            && p.ticket < |c.started| && c.started[p.ticket..] == [p.d] && c.completed == |c.started| && !c.word
            && Step(c, Unlock(t)).returned == c.returned + [p.ticket]
  {
    RunKeepsInv(IDLE, actions);
    assert t in Run(IDLE, actions).places;
  }
}
