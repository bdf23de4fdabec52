/** From an assertion of the reset to its release on both sides: whatever the registers held, they
    are flushed by the time each side runs, the read side first. */
module FifoReset {
  import opened ToggleLane
  import opened Port
  import opened Parameters
  import opened TokenRing
  import opened Fifo
  import opened FifoInvariant
  import opened FifoRunning
  import opened FifoWords
  import Address
  import Arithmetic
  import ResetSync

  // Any contents at all, then an assertion.
  lemma AssertEstablishes<T>(cfg: Config, w: World<T>)
    requires cfg.Valid()
    ensures Inv(cfg, Next(cfg, w, ResetAssert))
  {
  }

  lemma AddrStart(cfg: Config)
    requires cfg.Valid()
    ensures StepAddr(cfg, 0) == Address.CLEAR
    ensures Slot(cfg, 0) == 0
    ensures AddrClock(cfg, Address.CLEAR, true, true) == StepAddr(cfg, 1)
    ensures AddrClock(cfg, Address.CLEAR, true, false) == Address.CLEAR
  {
    AddrFacts(cfg);
    var l, h := Lows(cfg), Highs(cfg);
    Arithmetic.DivModUnique(0, l, 0, 0);
    Address.CeilDivOf(0, l);
    Arithmetic.DivModUnique(0, h, 0, 0);
    AddrStep(cfg, 0, true);
  }

  // The port of a side held in reset.
  lemma PortFlush(cfg: Config, p: Port, sclrn: bool, clearPrev: bool, event: bool, seen: Crossing)
    requires cfg.Valid()
    requires p.tx == TX3_CLEAR && RxSyncClear(p.rx)
    ensures var p' := PortClock(cfg, p, false, sclrn, clearPrev, event, seen);
            && p'.tx == TX3_CLEAR && RxSyncClear(p'.rx) && RxPrevClear(p'.rx)
            && (RxPrevClear(p.rx) ==> RxPipeClear(p'.rx))
            && (!sclrn ==> p'.left.lo == 0 && p'.left.hi == 0)
            && (p.left.lo == 0 && p.left.hi == 0 ==> !p'.left.hiIncr && !p'.left.hiDecr)
  {
  }

  // The read registers with a synchronous reset, and those without one, on an edge that samples it low.
  lemma ReadHeld<T>(cfg: Config, r: ReadSide<T>, rdAck: bool, word: T, seen: Crossing)
    requires cfg.Valid()
    ensures var r' := ReadClock(cfg, r, false, false, rdAck, word, seen);
            && ReadStart(cfg, r') && r'.addr == Address.CLEAR && !r'.sclrnPrev
            && (r.addr == Address.CLEAR ==> r'.hardAddr == 0)
            && r'.port == PortClock(cfg, r.port, false, false, true, ReadFromFifo(r, rdAck), seen)
  {
    hide PortClock, Update, Feed, PrefetchEnable, AheadOfRead;
  }

  // Which edges of the release are sure to find the synchronous reset low.
  lemma ReadHeldLow(c: ResetSync.Chain, wr: bool, wrMaySee: bool, rdMaySee: bool)
    requires ResetSync.ChainInv(c) && !c.RdAclrn()
    ensures var c' := ResetSync.Edge(c, wr, true, wrMaySee, rdMaySee);
            && (c'.rdBody1 ==> !c.RdSclrn())
            && (c'.rdAsyncPipe0 ==> c.rdBody1)
            && (c'.RdAclrn() ==> c.rdAsyncPipe0 && c.rdBody1 && c'.rdBody1)
  {
  }

  // What an edge in reset leaves in the read registers.
  lemma ReadFlushed<T>(cfg: Config, c: ResetSync.Chain, r: ReadSide<T>, rdAck: bool, word: T, seen: Crossing)
    requires cfg.Valid()
    requires ResetSync.ChainInv(c) && !c.RdAclrn() && ReadFlush(cfg, c, r)
    ensures var r' := ReadClock(cfg, r, false, c.RdSclrn(), rdAck, word, seen);
            && r'.port.tx == TX3_CLEAR
            && RxSyncClear(r'.port.rx) && RxPrevClear(r'.port.rx) && RxPipeClear(r'.port.rx)
            && (!c.RdSclrn() ==> ReadStart(cfg, r') && r'.addr == Address.CLEAR && !r'.sclrnPrev
                                 && r'.port.left.lo == 0 && r'.port.left.hi == 0)
            && (!c.RdSclrn() && c.rdBody1 ==> r'.hardAddr == 0)
            && (c.rdBody1 ==> !r'.port.left.hiIncr && !r'.port.left.hiDecr)
  {
    hide PortClock, Update, RxSyncClear, RxPrevClear, RxPipeClear, Feed, PrefetchEnable, AheadOfRead, ReadStart,
        AddrClock;
    PortFlush(cfg, r.port, c.RdSclrn(), true, ReadFromFifo(r, rdAck), seen);
    if !c.RdSclrn() {
      ReadHeld(cfg, r, rdAck, word, seen);
    }
  }

  // low: the last edge sampled the synchronous reset low; late: the one before it did, too.
  lemma ReadFlushEnd<T>(cfg: Config, c: ResetSync.Chain, r: ReadSide<T>, low: bool, late: bool)
    requires cfg.Valid()
    requires r.port.tx == TX3_CLEAR
    requires RxSyncClear(r.port.rx) && RxPrevClear(r.port.rx) && RxPipeClear(r.port.rx)
    requires low ==> ReadStart(cfg, r) && r.addr == Address.CLEAR && !r.sclrnPrev
    requires low ==> r.port.left.lo == 0 && r.port.left.hi == 0
    requires low && late ==> r.hardAddr == 0 && !r.port.left.hiIncr && !r.port.left.hiDecr
    requires c.rdBody1 ==> low
    requires c.rdAsyncPipe0 || c.RdAclrn() ==> low && late
    ensures ReadFlush(cfg, c, r)
    ensures c.RdAclrn() ==> ReadIdle(cfg, r)
  {
    hide RxSyncClear, RxPrevClear, RxPipeClear, ReadStart, PortClear, StepAddr, Slot, AddrClock;
    if c.RdAclrn() {
      PortIsClear(r.port);
      AddrStart(cfg);
    }
  }

  lemma ReadFlushStep<T>(cfg: Config, c: ResetSync.Chain, r: ReadSide<T>, wr: bool, wrMaySee: bool, rdMaySee: bool,
                         rdAck: bool, word: T, seen: Crossing)
    requires cfg.Valid()
    requires ResetSync.ChainInv(c) && !c.RdAclrn() && ReadFlush(cfg, c, r)
    ensures var r' := ReadClock(cfg, r, false, c.RdSclrn(), rdAck, word, seen);
            var c' := ResetSync.Edge(c, wr, true, wrMaySee, rdMaySee);
            ReadFlush(cfg, c', r') && (c'.RdAclrn() ==> ReadIdle(cfg, r'))
  {
    ReadHeldLow(c, wr, wrMaySee, rdMaySee);
    ReadFlushed(cfg, c, r, rdAck, word, seen);
    ReadFlushEnd(cfg, ResetSync.Edge(c, wr, true, wrMaySee, rdMaySee),
                 ReadClock(cfg, r, false, c.RdSclrn(), rdAck, word, seen), !c.RdSclrn(), c.rdBody1);
  }

  lemma PortIsClear(p: Port)
    requires p.tx == TX3_CLEAR && RxSyncClear(p.rx) && RxPrevClear(p.rx) && RxPipeClear(p.rx)
    requires p.left == LEFT_CLEAR
    ensures PortClear(p)
  {
  }

  predicate WriteReady(cfg: Config, w: WriteSide)
    requires cfg.Valid()
  {
    WriteStart(cfg, w) && PortClear(w.port)
  }

  lemma WriteFlushStep(cfg: Config, c: ResetSync.Chain, w: WriteSide, c': ResetSync.Chain, rd: bool, wrMaySee: bool,
                       rdMaySee: bool,
                       write: bool, seen: Crossing)
    requires cfg.Valid()
    requires ResetSync.ChainInv(c) && !c.WrAclrn() && WriteFlush(cfg, c, w)
    requires c' == ResetSync.Edge(c, true, rd, wrMaySee, rdMaySee)
    ensures var w' := WriteClock(cfg, w, c.WrAclrn(), c.WrSclrn(), write, seen);
            && (!c'.WrAclrn() ==> WriteFlush(cfg, c', w'))
            && (c'.WrAclrn() ==> WriteReady(cfg, w'))
  {
    hide PortClock, Update, RxSyncClear, RxPrevClear, RxPipeClear;
    PortFlush(cfg, w.port, c.WrSclrn(), false, write, seen);
    var w' := WriteClock(cfg, w, c.WrAclrn(), c.WrSclrn(), write, seen);
    if c'.WrAclrn() {
      PortIsClear(w'.port);
    }
  }

  // The read side, running while the write side is still held, sees nothing and does nothing.
  lemma ReadIdleStep<T>(cfg: Config, r: ReadSide<T>, rdAck: bool, word: T, seen: Crossing)
    requires cfg.Valid()
    requires ReadIdle(cfg, r)
    requires seen == Crossing(Trio(false, false, false), Trio(false, false, false))
    ensures ReadIdle(cfg, ReadClock(cfg, r, true, true, rdAck, word, seen))
  {
    AddrFacts(cfg);
    AddrStart(cfg);
    TopBit(0, cfg.Size());
    WrapUp(0, 2 * cfg.Size());
    WrapUp(cfg.almostEmptyCutoff, 2 * cfg.Size());
    ClearPortStays(cfg, r.port, seen);
    hide PortClock, PortEdge, AddrClock;
  }

  lemma ClearPortStays(cfg: Config, p: Port, seen: Crossing)
    requires cfg.Valid()
    requires PortClear(p)
    requires seen == Crossing(Trio(false, false, false), Trio(false, false, false))
    ensures PortClear(PortClock(cfg, p, true, true, true, false, seen))
    ensures Update(p.rx, cfg.pipeline) == 0
  {
  }

  // All tokens with the writer, and nothing in flight.
  lemma ClearRing(a: Agent, b: Agent, hiModulus: nat, pipeline: bool)
    requires hiModulus > 0
    requires PortClear(a.port) && PortClear(b.port)
    requires 0 <= a.buffer <= 4 * hiModulus && b.buffer == 0
    ensures RingInv(a, b, hiModulus, pipeline, a.buffer)
    ensures Outstanding(a.port, b.port.rx, pipeline) == 0
  {
    ClearLink(a.port, b.port, hiModulus, pipeline);
    ClearLink(b.port, a.port, hiModulus, pipeline);
    hide LinkInv, Outstanding;
  }

  lemma ClearLink(p: Port, q: Port, hiModulus: nat, pipeline: bool)
    requires hiModulus > 0
    requires PortClear(p) && PortClear(q)
    ensures LinkInv(p, q.rx, hiModulus)
    ensures Outstanding(p, q.rx, pipeline) == 0
  {
  }

  lemma WriteStartCounts(cfg: Config, w: WriteSide)
    requires cfg.Valid() && WriteStart(cfg, w)
    ensures WriteCounters(cfg, w, 0) && Writer(cfg, w).buffer == cfg.depth
  {
    AddrFacts(cfg);
    AddrStart(cfg);
    hide AddrClock, Slot, StepAddr;
  }

  lemma ReadStartCounts<T>(cfg: Config, r: ReadSide<T>)
    requires cfg.Valid() && ReadIdle(cfg, r)
    ensures ReadCounters(cfg, r, 0) && Reader(cfg, r).buffer == 0 && Stock(cfg, r) == 0
  {
    AddrFacts(cfg);
    AddrStart(cfg);
    hide AddrClock, Slot, StepAddr;
  }

  // Both sides at their start: the running invariant, with nothing written or read.
  lemma StartIsRunning<T>(cfg: Config, w: World<T>)
    requires cfg.Valid()
    requires WriteReady(cfg, w.fifo.wr) && ReadIdle(cfg, w.fifo.rd)
    requires w.pushed == [] && w.popped == []
    ensures Running(cfg, w)
  {
    WriteStartCounts(cfg, w.fifo.wr);
    ReadStartCounts(cfg, w.fifo.rd);
    AddrFacts(cfg);
    hide WriteCounters, ReadCounters, Stock, RingInv, Outstanding, AddrClock, Slot, StepAddr, WriteStart, ReadStart,
        PortClear;
    ClearRing(Writer(cfg, w.fifo.wr), Reader(cfg, w.fifo.rd), cfg.HiModulus(), cfg.pipeline);
    assert !w.fifo.rd.validRaw by {
      IdleIsInvalid(cfg, w.fifo.rd);
    }
  }

  lemma IdleIsInvalid<T>(cfg: Config, r: ReadSide<T>)
    requires ReadIdle(cfg, r)
    ensures !r.validRaw
  {
  }
}
