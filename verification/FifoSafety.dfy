/** What the dual-clock FIFO guarantees on every run: from any contents of its registers, after an
    assertion of the reset, for every interleaving of the two clocks and of further resets. */
module FifoSafety {
  import opened ToggleLane
  import opened Port
  import opened Parameters
  import opened TokenRing
  import opened Fifo
  import opened FifoInvariant
  import opened FifoRunning
  import opened FifoWords
  import opened FifoReset
  import ResetSync

  lemma ReleasedWhenBoth(c: ResetSync.Chain)
    requires ResetSync.ChainInv(c)
    ensures c.WrAclrn() ==> Released(c)
    ensures c.RdAclrn() ==> c.RdSclrn()
  {
  }

  // The chain in an edge where not both sides run yet.
  lemma ChainOrder(c: ResetSync.Chain, wr: bool, rd: bool, wrMaySee: bool, rdMaySee: bool)
    requires ResetSync.ChainInv(c)
    ensures var c' := ResetSync.Edge(c, wr, rd, wrMaySee, rdMaySee);
            && ResetSync.ChainInv(c')
            && (c.WrAclrn() ==> c'.WrAclrn())
            && (c.RdAclrn() ==> c'.RdAclrn())
            && (!c.RdAclrn() ==> !c'.WrAclrn() && !c.WrAclrn())
            && (!rd ==> c'.RdAclrn() == c.RdAclrn() && c'.rdHead == c.rdHead
                        && c'.rdBody1 == c.rdBody1 && c'.rdAsyncPipe0 == c.rdAsyncPipe0)
            && (!wr ==> c'.WrAclrn() == c.WrAclrn()
                        && c'.wrAgainHead == c.wrAgainHead && c'.wrAgainBody0 == c.wrAgainBody0
                        && c'.wrAgainBody1 == c.wrAgainBody1 && c'.wrAsyncPipe0 == c.wrAsyncPipe0)
  {
  }

  // While the write side is in reset the read side sees only zeros from it.
  lemma NothingToSee(takeNewSample: Trio<bool>, takeNewBack: Trio<bool>, other: Port, edge: bool)
    requires other.tx == TX3_CLEAR && RxSyncClear(other.rx)
    ensures SeenBy(takeNewSample, takeNewBack, other, edge, false)
        == Crossing(Trio(false, false, false), Trio(false, false, false))
  {
  }

  // One edge while the write side is still in reset: the read side.
  lemma HeldReadStep<T>(cfg: Config, w: World<T>, e: Event<T>)
    requires cfg.Valid()
    requires Inv(cfg, w) && !w.fifo.reset.WrAclrn() && e.Edge?
    ensures var f' := Clock(cfg, w.fifo, e);
            && (!f'.reset.RdAclrn() ==> ReadFlush(cfg, f'.reset, f'.rd))
            && (f'.reset.RdAclrn() ==> ReadIdle(cfg, f'.rd))
  {
    hide ReadFlush, ReadIdle, WriteClock, ReadClock, ResetSync.ChainInv, ResetSync.Edge, RamOut, SeenBy, Running;
    var f, c := w.fifo, w.fifo.reset;
    var wr, rd := e.clocks.Wr(), e.clocks.Rd();
    ChainOrder(c, wr, rd, e.luck.wrReset, e.luck.rdReset);
    ReleasedWhenBoth(c);
    var word := RamOut(cfg, f, wr && WriteIntoFifo(cfg, f, e.wrReq), e.luck.noise);
    var seen := SeenBy(e.luck.rdSample, e.luck.rdBack, f.wr.port, wr, false);
    if rd && !c.RdAclrn() {
      ReadFlushStep(cfg, c, f.rd, wr, e.luck.wrReset, e.luck.rdReset, e.rdAck, word, seen);
    } else if rd {
      NothingToSee(e.luck.rdSample, e.luck.rdBack, f.wr.port, wr);
      ReadIdleStep(cfg, f.rd, e.rdAck, word, seen);
    } else if !c.RdAclrn() {
      FlushStays(cfg, c, Clock(cfg, f, e).reset, f.rd);
    }
  }

  lemma FlushStays<T>(cfg: Config, c: ResetSync.Chain, c': ResetSync.Chain, r: ReadSide<T>)
    requires ReadFlush(cfg, c, r)
    requires c'.rdHead == c.rdHead && c'.rdBody1 == c.rdBody1 && c'.rdAsyncPipe0 == c.rdAsyncPipe0
    ensures ReadFlush(cfg, c', r)
  {
  }

  // One edge while the write side is still in reset: the write side.
  lemma HeldWriteStep<T>(cfg: Config, w: World<T>, e: Event<T>)
    requires cfg.Valid()
    requires Inv(cfg, w) && !w.fifo.reset.WrAclrn() && e.Edge?
    ensures var f' := Clock(cfg, w.fifo, e);
            && (!f'.reset.WrAclrn() ==> WriteFlush(cfg, f'.reset, f'.wr))
            && (f'.reset.WrAclrn() ==> WriteReady(cfg, f'.wr))
  {
    hide ReadFlush, ReadIdle, WriteClock, ReadClock, ResetSync.ChainInv, RamOut, SeenBy, Running, WriteReady,
        WriteIntoFifo;
    var f, c := w.fifo, w.fifo.reset;
    var wr, rd := e.clocks.Wr(), e.clocks.Rd();
    ChainOrder(c, wr, rd, e.luck.wrReset, e.luck.rdReset);
    if wr {
      WriteFlushStep(cfg, c, f.wr, Clock(cfg, f, e).reset, rd, e.luck.wrReset, e.luck.rdReset,
                     WriteIntoFifo(cfg, f, e.wrReq),
                     SeenBy(e.luck.wrSample, e.luck.wrBack, f.rd.port, rd, c.RdAclrn()));
    }
  }

  /** Every event keeps the invariant: edges in reset and out of it, and resets at any time. */
  lemma InvStep<T>(cfg: Config, w: World<T>, e: Event<T>)
    requires cfg.Valid()
    requires Inv(cfg, w)
    requires ClientKeepsPromise(cfg, w.fifo, e)
    ensures Inv(cfg, Next(cfg, w, e))
  {
    match e
    case ResetAssert =>
      AssertEstablishes(cfg, w);
    case ResetRelease =>
      ReleaseKeepsInv(cfg, w);
    case Edge(_, _, _, _, _) =>
      EdgeKeepsInv(cfg, w, e);
  }

  // Releasing the asynchronous input changes nothing until the clocks have carried it through the chain.
  lemma ReleaseKeepsInv<T>(cfg: Config, w: World<T>)
    requires cfg.Valid()
    requires Inv(cfg, w)
    ensures Inv(cfg, Next(cfg, w, ResetRelease))
  {
    hide ReadFlush, WriteFlush, ReadIdle, Running, ResetSync.ChainInv;
    var c := w.fifo.reset;
    ResetSync.ChainStep(c, false, false, false, false);
    if !c.RdAclrn() {
      FlushStays(cfg, c, ResetSync.Release(c), w.fifo.rd);
    }
    if !c.WrAclrn() {
      WriteFlushStays(cfg, c, ResetSync.Release(c), w.fifo.wr);
    }
    RunningStays(cfg, w, ResetSync.Release(c));
  }

  lemma WriteFlushStays(cfg: Config, c: ResetSync.Chain, c': ResetSync.Chain, w: WriteSide)
    requires cfg.Valid() && WriteFlush(cfg, c, w)
    requires c'.wrAgainHead == c.wrAgainHead && c'.wrAgainBody0 == c.wrAgainBody0 && c'.wrAgainBody1 == c.wrAgainBody1
    requires c'.wrAsyncPipe0 == c.wrAsyncPipe0
    ensures WriteFlush(cfg, c', w)
  {
    hide RxPrevClear, RxPipeClear, RxSyncClear, WriteStart;
  }

  // The running invariant does not speak of the reset.
  lemma RunningStays<T>(cfg: Config, w: World<T>, c: ResetSync.Chain)
    requires cfg.Valid()
    ensures Running(cfg, w) <==> Running(cfg, w.(fifo := w.fifo.(reset := c)))
  {
    hide WriteCounters, ReadCounters, RingInv, Outstanding, Stock;
  }

  lemma EdgeKeepsInv<T>(cfg: Config, w: World<T>, e: Event<T>)
    requires cfg.Valid()
    requires Inv(cfg, w)
    requires e.Edge? && ClientKeepsPromise(cfg, w.fifo, e)
    ensures Inv(cfg, Next(cfg, w, e))
  {
    hide ReadFlush, WriteFlush, ReadIdle, WriteReady, ResetSync.ChainInv, ResetSync.Edge, Running, WriteClock,
        ReadClock, RamOut, SeenBy, WriteIntoFifo;
    var f, c := w.fifo, w.fifo.reset;
    var w' := Next(cfg, w, e);
    ChainOrder(c, e.clocks.Wr(), e.clocks.Rd(), e.luck.wrReset, e.luck.rdReset);
    ReleasedWhenBoth(c);
    if c.WrAclrn() {
      RunningStep(cfg, w, e);
    } else {
      HeldReadStep(cfg, w, e);
      HeldWriteStep(cfg, w, e);
      QuietInReset(cfg, w, e);
      if w'.fifo.reset.WrAclrn() {
        StartIsRunning(cfg, w');
      }
    }
  }

  lemma QuietInReset<T>(cfg: Config, w: World<T>, e: Event<T>)
    requires cfg.Valid()
    requires Inv(cfg, w) && !w.fifo.reset.WrAclrn()
    ensures !Accepts(cfg, w.fifo, e) && !Delivers(w.fifo, e)
  {
    hide ReadFlush, WriteFlush, ResetSync.ChainInv, StepAddr, PortClear, Running;
  }

  // Runs

  function Run<T>(cfg: Config, w: World<T>, events: seq<Event<T>>): World<T>
    requires cfg.Valid()
    decreases |events|
  {
    if events == [] then w else Run(cfg, Next(cfg, w, events[0]), events[1..])
  }

  predicate PromiseKept<T>(cfg: Config, w: World<T>, events: seq<Event<T>>)
    requires cfg.Valid()
    decreases |events|
  {
    events == [] || (ClientKeepsPromise(cfg, w.fifo, events[0])
                     && PromiseKept(cfg, Next(cfg, w, events[0]), events[1..]))
  }

  lemma {:induction false} RunKeepsInv<T>(cfg: Config, w: World<T>, events: seq<Event<T>>)
    requires cfg.Valid()
    requires Inv(cfg, w)
    requires PromiseKept(cfg, w, events)
    ensures Inv(cfg, Run(cfg, w, events))
    decreases |events|
  {
    if events != [] {
      InvStep(cfg, w, events[0]);
      RunKeepsInv(cfg, Next(cfg, w, events[0]), events[1..]);
    }
  }

  /** The FIFO delivers what it was given, in order, once: on every run from any power-up contents,
      whatever the clocks, the crossings, the RAM and the resets do, the delivered words are a prefix
      of the accepted ones, the word on offer is the next one, and no more than DEPTH words are inside. */
  lemma DeliversInOrder<T>(cfg: Config, start: World<T>, events: seq<Event<T>>)
    requires cfg.Valid()
    requires PromiseKept(cfg, Next(cfg, start, ResetAssert), events)
    ensures var w := Run(cfg, Next(cfg, start, ResetAssert), events);
            && w.popped <= w.pushed
            && |w.pushed| - |w.popped| <= cfg.depth
            && (!RdEmpty(w.fifo) ==> |w.popped| < |w.pushed| && w.fifo.rd.data == w.pushed[|w.popped|])
  {
    hide ReadFlush, WriteFlush, Outstanding, Stored, Clock;
    AssertEstablishes(cfg, start);
    RunKeepsInv(cfg, Next(cfg, start, ResetAssert), events);
    InvMeans(cfg, Run(cfg, Next(cfg, start, ResetAssert), events));
  }

  lemma InvMeans<T>(cfg: Config, w: World<T>)
    requires cfg.Valid()
    requires Inv(cfg, w)
    ensures w.popped <= w.pushed
    ensures |w.pushed| - |w.popped| <= cfg.depth
    ensures !RdEmpty(w.fifo) ==> |w.popped| < |w.pushed| && w.fifo.rd.data == w.pushed[|w.popped|]
    ensures w.fifo.reset.WrAclrn() ==>
              && cfg.FullSlack() <= w.fifo.wr.usedWords <= cfg.Size()
              && |w.pushed| - |w.popped| <= w.fifo.wr.usedWords - cfg.FullSlack() <= cfg.depth
  {
    hide ReadFlush, WriteFlush, RingInv, Outstanding, Stored, PortClear, StepAddr, Slot, Negated;
    if w.fifo.reset.WrAclrn() {
      RingBounds(Writer(cfg, w.fifo.wr), Reader(cfg, w.fifo.rd), cfg.HiModulus(), cfg.pipeline, cfg.depth);
    }
  }
}
