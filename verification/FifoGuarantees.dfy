/** Further guarantees on every run: the flags mean exactly what the simulation-only checks of the
    circuit expect, every word is accounted for, no counter wraps, and the kind of RAM does not show. */
module FifoGuarantees {
  import opened ToggleLane
  import opened Port
  import opened Parameters
  import opened TokenRing
  import opened Fifo
  import opened FifoInvariant
  import opened FifoRunning
  import opened FifoWords
  import opened FifoReset
  import opened FifoSafety
  import ResetSync

  lemma FlagsOfInv<T>(cfg: Config, w: World<T>)
    requires cfg.Valid()
    requires Inv(cfg, w)
    ensures var f := w.fifo;
            && (WrFull(cfg, f) <==> !f.reset.WrAclrn() || f.wr.simUsed == cfg.depth)
            && (WrAlmostFull(cfg, f) <==> SimAlmostFull(cfg, f))
            && (RdEmpty(f) <==> !f.reset.RdAclrn() || f.rd.simUsed == 0)
            && (RdAlmostEmpty(cfg, f) <==> SimAlmostEmpty(cfg, f))
            && (f.reset.WrAclrn() ==> 0 <= f.rd.simUsed <= |w.pushed| - |w.popped| <= f.wr.simUsed <= cfg.depth)
  {
    hide ReadFlush, WriteFlush, RingInv, Outstanding, Words, PortClear, StepAddr, Slot, Negated, ResetSync.ChainInv;
    AddrFacts(cfg);
    ReleasedInv(cfg, w);
    if w.fifo.reset.WrAclrn() {
      RingBounds(Writer(cfg, w.fifo.wr), Reader(cfg, w.fifo.rd), cfg.HiModulus(), cfg.pipeline, cfg.depth);
      FlagsExact(cfg, w.fifo, |w.pushed|, |w.popped|);
    } else if w.fifo.reset.RdAclrn() {
      TopBit(cfg.almostEmptyCutoff, cfg.Size());
    }
  }

  lemma ReleasedInv<T>(cfg: Config, w: World<T>)
    requires cfg.Valid()
    requires Inv(cfg, w)
    ensures w.fifo.reset.WrAclrn() ==> Released(w.fifo.reset)
  {
    hide ReadFlush, WriteFlush, Running, ReadIdle;
    ReleasedWhenBoth(w.fifo.reset);
  }

  /** On every run each flag is exact. Full, almost full, empty and almost empty are most-significant-bit
      tests on modular counters; they agree with unbounded counters at all times, and the read side's
      count, the true occupancy and the write side's count are always in that order. */
  lemma FlagsAreExact<T>(cfg: Config, start: World<T>, events: seq<Event<T>>)
    requires cfg.Valid()
    requires PromiseKept(cfg, Next(cfg, start, ResetAssert), events)
    ensures var w := Run(cfg, Next(cfg, start, ResetAssert), events);
            var f := w.fifo;
            && (WrFull(cfg, f) <==> !f.reset.WrAclrn() || f.wr.simUsed == cfg.depth)
            && (WrAlmostFull(cfg, f) <==> SimAlmostFull(cfg, f))
            && (RdEmpty(f) <==> !f.reset.RdAclrn() || f.rd.simUsed == 0)
            && (RdAlmostEmpty(cfg, f) <==> SimAlmostEmpty(cfg, f))
            && (f.reset.WrAclrn() ==> 0 <= f.rd.simUsed <= |w.pushed| - |w.popped| <= f.wr.simUsed <= cfg.depth)
  {
    hide Clock;
    AssertEstablishes(cfg, start);
    RunKeepsInv(cfg, Next(cfg, start, ResetAssert), events);
    FlagsOfInv(cfg, Run(cfg, Next(cfg, start, ResetAssert), events));
  }

  // What a side is about to send is outstanding, although the upper bits it decides by may be one clock old.
  predicate Backed(p: Port) {
    && Weight(ToSend(p.left, p.tx)) <= Value(p.left)
    && (ToSend(p.left, p.tx).four ==> Value(p.left) >= 4)
  }

  lemma LinkIsBacked(p: Port, rx: Trio<Rx>, hiModulus: nat)
    requires LinkInv(p, rx, hiModulus)
    ensures Backed(p)
  {
    SendIsBacked(p.left, p.tx, hiModulus);
  }

  /** Every accepted word is in exactly one place, in both directions: not yet reported, in a toggle,
      in the RAM or the prefetch, or delivered; and every place delivered is on its way back or free.
      Neither leftover counter ever needs a bit it does not have, though each is only ADDR bits wide; and nothing
      is sent, in particular no +4, that is not outstanding. */
  lemma EveryWordAccounted<T>(cfg: Config, start: World<T>, events: seq<Event<T>>)
    requires cfg.Valid()
    requires PromiseKept(cfg, Next(cfg, start, ResetAssert), events)
    ensures var w := Run(cfg, Next(cfg, start, ResetAssert), events);
            var f := w.fifo;
            f.reset.WrAclrn() ==>
              && |w.pushed| == |w.popped| + Bit(f.rd.validRaw) + Available(cfg, f.rd)
                             + Flying(f.wr.port.tx, f.rd.port.rx, cfg.pipeline) + Value(f.wr.port.left)
              && f.wr.usedWords == cfg.FullSlack() + |w.pushed| - |w.popped|
                             + Flying(f.rd.port.tx, f.wr.port.rx, cfg.pipeline) + Value(f.rd.port.left)
              && 0 <= Value(f.wr.port.left) < cfg.Size() && f.wr.port.left.hi < cfg.Size() / 4
              && 0 <= Value(f.rd.port.left) < cfg.Size() && f.rd.port.left.hi < cfg.Size() / 4
              && Backed(f.wr.port) && Backed(f.rd.port)
  {
    hide Clock;
    AssertEstablishes(cfg, start);
    RunKeepsInv(cfg, Next(cfg, start, ResetAssert), events);
    AccountsOfInv(cfg, Run(cfg, Next(cfg, start, ResetAssert), events));
  }

  lemma AccountsOfInv<T>(cfg: Config, w: World<T>)
    requires cfg.Valid()
    requires Inv(cfg, w)
    ensures var f := w.fifo;
            f.reset.WrAclrn() ==>
              && |w.pushed| == |w.popped| + Bit(f.rd.validRaw) + Available(cfg, f.rd)
                             + Flying(f.wr.port.tx, f.rd.port.rx, cfg.pipeline) + Value(f.wr.port.left)
              && f.wr.usedWords == cfg.FullSlack() + |w.pushed| - |w.popped|
                             + Flying(f.rd.port.tx, f.wr.port.rx, cfg.pipeline) + Value(f.rd.port.left)
              && 0 <= Value(f.wr.port.left) < cfg.Size() && f.wr.port.left.hi < cfg.Size() / 4
              && 0 <= Value(f.rd.port.left) < cfg.Size() && f.rd.port.left.hi < cfg.Size() / 4
              && Backed(f.wr.port) && Backed(f.rd.port)
  {
    hide ReadFlush, WriteFlush, Words, ReadIdle, ReadBackLeads, LanesInv, Flying, StepAddr, Slot, Negated,
        ResetSync.ChainInv, WriteCounters, ReadCounters, Available;
    AddrFacts(cfg);
    hide Backed;
    if w.fifo.reset.WrAclrn() {
      LinkIsBacked(w.fifo.wr.port, w.fifo.rd.port.rx, cfg.HiModulus());
      LinkIsBacked(w.fifo.rd.port, w.fifo.wr.port.rx, cfg.HiModulus());
    }
  }

  // Two builds of the same FIFO that differ in the kind of RAM and in what the output holds when empty.
  predicate SameUpToRam(cfg: Config, cfg': Config) {
    cfg' == cfg.(ram := cfg'.ram, holdData := cfg'.holdData)
  }

  // Equal but for the read address and output registers, and the RAM.
  predicate Alike<T(==)>(w: World<T>, w': World<T>) {
    && w'.fifo.reset == w.fifo.reset
    && w'.fifo.wr == w.fifo.wr
    && w'.fifo.rd == w.fifo.rd.(addr := w'.fifo.rd.addr, hardAddr := w'.fifo.rd.hardAddr, data := w'.fifo.rd.data)
    && w'.pushed == w.pushed
    && w'.popped == w.popped
  }

  // The same stimulus, with whatever an undefined RAM output shows.
  predicate SameStimulus<T(==)>(e: Event<T>, e': Event<T>) {
    e' == if e.Edge? && e'.Edge? then e.(luck := e.luck.(noise := e'.luck.noise)) else e
  }

  lemma SameConstants(cfg: Config, cfg': Config)
    requires cfg.Valid() && cfg'.Valid() && SameUpToRam(cfg, cfg')
    ensures cfg'.Size() == cfg.Size() && cfg'.HiModulus() == cfg.HiModulus() && cfg'.FullSlack() == cfg.FullSlack()
    ensures Lows(cfg') == Lows(cfg) && Highs(cfg') == Highs(cfg)
  {
  }

  lemma AlikeWrite(cfg: Config, cfg': Config, w: WriteSide, aclrn: bool, sclrn: bool, write: bool, seen: Crossing)
    requires cfg.Valid() && cfg'.Valid() && SameUpToRam(cfg, cfg')
    ensures WriteClock(cfg', w, aclrn, sclrn, write, seen) == WriteClock(cfg, w, aclrn, sclrn, write, seen)
  {
    hide Update, PortEdge;
    SameConstants(cfg, cfg');
  }

  lemma AlikeRead<T>(cfg: Config, cfg': Config, r: ReadSide<T>, r': ReadSide<T>, aclrn: bool, sclrn: bool, rdAck: bool,
                     word: T, word': T, seen: Crossing)
    requires cfg.Valid() && cfg'.Valid() && SameUpToRam(cfg, cfg')
    requires r' == r.(addr := r'.addr, hardAddr := r'.hardAddr, data := r'.data)
    ensures var s, s' := ReadClock(cfg, r, aclrn, sclrn, rdAck, word, seen),
                         ReadClock(cfg', r', aclrn, sclrn, rdAck, word', seen);
            s' == s.(addr := s'.addr, hardAddr := s'.hardAddr, data := s'.data)
  {
    hide Update, PortEdge, AddrClock, PrefetchEnable;
    SameConstants(cfg, cfg');
  }

  lemma AlikeStep<T>(cfg: Config, cfg': Config, w: World<T>, w': World<T>, e: Event<T>, e': Event<T>)
    requires cfg.Valid() && cfg'.Valid() && SameUpToRam(cfg, cfg')
    requires Inv(cfg, w) && Inv(cfg', w') && Alike(w, w')
    requires SameStimulus(e, e')
    ensures Alike(Next(cfg, w, e), Next(cfg', w', e'))
    ensures ClientKeepsPromise(cfg, w.fifo, e) <==> ClientKeepsPromise(cfg', w'.fifo, e')
  {
    hide Inv, RamOut, WriteClock, ReadClock, WriteAddr, ResetSync.Edge, SeenBy;
    SameConstants(cfg, cfg');
    InvMeans(cfg, w);
    InvMeans(cfg', w');
    if e.Edge? {
      var f, c := w.fifo, w.fifo.reset;
      var wr, rd := e.clocks.Wr(), e.clocks.Rd();
      var write := WriteIntoFifo(cfg, f, e.wrReq);
      AlikeWrite(cfg, cfg', f.wr, c.WrAclrn(), c.WrSclrn(), write,
                 SeenBy(e.luck.wrSample, e.luck.wrBack, f.rd.port, rd, c.RdAclrn()));
      AlikeRead(cfg, cfg', f.rd, w'.fifo.rd, c.RdAclrn(), c.RdSclrn(), e.rdAck,
                RamOut(cfg, f, wr && write, e.luck.noise),
                RamOut(cfg', w'.fifo, wr && write, e'.luck.noise),
                SeenBy(e.luck.rdSample, e.luck.rdBack, f.wr.port, wr, c.WrAclrn()));
    }
  }

  lemma {:induction false} AlikeRun<T>(cfg: Config, cfg': Config, w: World<T>, w': World<T>, events: seq<Event<T>>,
                                       events': seq<Event<T>>)
    requires cfg.Valid() && cfg'.Valid() && SameUpToRam(cfg, cfg')
    requires Inv(cfg, w) && Inv(cfg', w') && Alike(w, w')
    requires |events| == |events'| && forall i | 0 <= i < |events| :: SameStimulus(events[i], events'[i])
    requires PromiseKept(cfg, w, events)
    ensures var v, v' := Run(cfg, w, events), Run(cfg', w', events');
            Inv(cfg, v) && Inv(cfg', v') && Alike(v, v')
    decreases |events|
  {
    hide Inv, Clock;
    if events != [] {
      AlikeStep(cfg, cfg', w, w', events[0], events'[0]);
      InvStep(cfg, w, events[0]);
      InvStep(cfg', w', events'[0]);
      AlikeRun(cfg, cfg', Next(cfg, w, events[0]), Next(cfg', w', events'[0]), events[1..], events'[1..]);
    }
  }

  /** M20K and MLAB builds, with or without the hold option, cannot be told apart: from alike power-up
      contents, after a reset, on the same stimulus, they show the same flags and deliver the same words. */
  lemma RamKindDoesNotShow<T>(cfg: Config, cfg': Config, start: World<T>, start': World<T>, events: seq<Event<T>>,
                              events': seq<Event<T>>)
    requires cfg.Valid() && cfg'.Valid() && SameUpToRam(cfg, cfg')
    requires Alike(start, start')
    requires |events| == |events'| && forall i | 0 <= i < |events| :: SameStimulus(events[i], events'[i])
    requires PromiseKept(cfg, Next(cfg, start, ResetAssert), events)
    ensures var v, v' := Run(cfg, Next(cfg, start, ResetAssert), events),
                         Run(cfg', Next(cfg', start', ResetAssert), events');
            && v'.popped == v.popped && v'.pushed == v.pushed
            && (WrFull(cfg', v'.fifo) <==> WrFull(cfg, v.fifo))
            && (WrAlmostFull(cfg', v'.fifo) <==> WrAlmostFull(cfg, v.fifo))
            && (RdEmpty(v'.fifo) <==> RdEmpty(v.fifo)) && (RdAlmostEmpty(cfg', v'.fifo) <==> RdAlmostEmpty(cfg, v.fifo))
            && (!RdEmpty(v.fifo) ==> v'.fifo.rd.data == v.fifo.rd.data)
  {
    hide Inv, Clock;
    AssertEstablishes(cfg, start);
    AssertEstablishes(cfg', start');
    var w, w' := Next(cfg, start, ResetAssert), Next(cfg', start', ResetAssert);
    AlikeRun(cfg, cfg', w, w', events, events');
    SameConstants(cfg, cfg');
    InvMeans(cfg, Run(cfg, w, events));
    InvMeans(cfg', Run(cfg', w', events'));
  }
}
