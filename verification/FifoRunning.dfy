/** Out of reset every clock edge keeps the invariant of the FIFO. */
module FifoRunning {
  import opened ToggleLane
  import opened Port
  import opened Parameters
  import opened TokenRing
  import opened Fifo
  import opened FifoInvariant
  import Address
  import Arithmetic
  import ResetSync

  // The most significant bit of an (ADDR+1)-bit register.
  lemma TopBit(x: nat, size: nat)
    requires size > 0 && x < 2 * size
    ensures x / size % 2 == 1 <==> x >= size
  {
    if x >= size {
      Arithmetic.DivModUnique(x, size, 1, x - size);
    } else {
      Arithmetic.DivModUnique(x, size, 0, x);
    }
  }

  lemma WrapUp(x: int, m: nat)
    requires 0 < m
    ensures 0 <= x < m ==> x % m == x
    ensures 0 <= x + m < m ==> x % m == x + m
    ensures 0 <= x - m < m ==> x % m == x - m
  {
  }

  lemma AddrFacts(cfg: Config)
    requires cfg.Valid()
    ensures Lows(cfg) > 1 && Highs(cfg) * Lows(cfg) == cfg.Size()
    ensures cfg.Size() == 4 * cfg.HiModulus() && cfg.depth <= cfg.Size()
  {
    SizeFacts(cfg);
    var k := cfg.AddrBits();
    Pow2Sum(k - k / 2, k / 2);
    Pow2Grows(1, k / 2);
    assert Pow2(1) == 2;
  }

  lemma AddrStep(cfg: Config, n: nat, incr: bool)
    requires cfg.Valid()
    ensures AddrClock(cfg, StepAddr(cfg, n), true, incr) == StepAddr(cfg, n + Bit(incr))
  {
    AddrFacts(cfg);
    Address.CounterStep(n, Lows(cfg), Highs(cfg));
  }

  /** Exactly what the modular most-significant-bit tests mean. */
  lemma FlagsExact(cfg: Config, f: Fifo, written: nat, delivered: nat)
    requires cfg.Valid()
    requires WriteCounters(cfg, f.wr, written)
    requires ReadCounters(cfg, f.rd, delivered)
    ensures WrFullRaw(cfg, f) <==> f.wr.usedWords == cfg.Size()
    ensures Msb(cfg, f.wr.almostFullCounter) <==> f.wr.usedWords - cfg.FullSlack() >= cfg.depth - cfg.almostFullCutoff
    ensures AheadOfRead(cfg, f.rd) <==> Available(cfg, f.rd) > 0
    ensures !f.rd.validRaw <==> ReadUsed(cfg, f.rd) == 0
    ensures ReadUsed(cfg, f.rd) >= 0
    ensures ReadUsed(cfg, f.rd) <= cfg.Size() ==>
              (!Msb(cfg, f.rd.almostEmptyCounter) <==> ReadUsed(cfg, f.rd) <= cfg.almostEmptyCutoff)
  {
    AddrFacts(cfg);
    var n := cfg.Size();
    TopBit(f.wr.usedWords, n);
    TopBit(f.wr.almostFullCounter, n);
    TopBit(f.rd.availableNegative, n);
    var d := cfg.almostEmptyCutoff - ReadUsed(cfg, f.rd);
    if ReadUsed(cfg, f.rd) <= n {
      TopBit(f.rd.almostEmptyCounter, n);
    }
  }

  lemma WriterEdge(cfg: Config, w: WriteSide, write: bool, seen: Crossing, written: nat)
    requires cfg.Valid()
    requires WriteCounters(cfg, w, written)
    requires 0 <= AgentEdge(Writer(cfg, w), cfg.HiModulus(), cfg.pipeline, write, seen).buffer <= cfg.depth
    ensures var w' := WriteClock(cfg, w, true, true, write, seen);
            && Writer(cfg, w') == AgentEdge(Writer(cfg, w), cfg.HiModulus(), cfg.pipeline, write, seen)
            && WriteCounters(cfg, w', written + Bit(write))
  {
    hide Update, PortEdge;
    AddrFacts(cfg);
    AddrStep(cfg, written, write);
    var update := Update(w.port.rx, cfg.pipeline);
    WrapUp(w.usedWords + Bit(write) - update, 2 * cfg.Size());
    WrapUp(w.almostFullCounter + Bit(write) - update, 2 * cfg.Size());
  }

  // The count of available words and the prefetch, over one edge of rd_clock.
  lemma ReaderStock<T>(cfg: Config, r: ReadSide<T>, rdAck: bool, delivered: nat)
    requires cfg.Valid()
    requires ReadCounters(cfg, r, delivered)
    requires 0 <= Stock(cfg, r) + Update(r.port.rx, cfg.pipeline) - Bit(ReadFromFifo(r, rdAck)) <= cfg.Size()
    ensures AheadOfRead(cfg, r) <==> Available(cfg, r) > 0
    ensures var update, feed := Update(r.port.rx, cfg.pipeline), Feed(cfg, r, rdAck);
            var next := Wrap(cfg, r.availableNegative + Bit(feed) - update);
            var valid' := AheadOfRead(cfg, r) || (r.validRaw && !rdAck);
            var available' := Available(cfg, r) - Bit(feed) + update;
            && 0 <= next < 2 * cfg.Size()
            && available' == (if next == 0 then 0 else 2 * cfg.Size() - next)
            && update <= available' <= cfg.Size()
            && Bit(r.validRaw) + Bit(feed) == Bit(valid') + Bit(ReadFromFifo(r, rdAck))
            && (!valid' ==> available' == update)
  {
    hide Update;
    AddrFacts(cfg);
    TopBit(r.availableNegative, cfg.Size());
    var update, feed := Update(r.port.rx, cfg.pipeline), Feed(cfg, r, rdAck);
    WrapUp(r.availableNegative + Bit(feed) - update, 2 * cfg.Size());
  }

  // The almost-empty counter.
  lemma ReaderAlmost<T>(cfg: Config, r: ReadSide<T>, read: bool, used': int, delivered: nat)
    requires cfg.Valid()
    requires ReadCounters(cfg, r, delivered)
    requires Stock(cfg, r) <= cfg.depth
    requires 0 <= used' <= cfg.depth
    requires used' == ReadUsed(cfg, r) + r.updatePrev - Bit(read)
    ensures Wrap(cfg, r.almostEmptyCounter + Bit(read) - r.updatePrev)
         == Negated(cfg, cfg.almostEmptyCutoff - used')
  {
    AddrFacts(cfg);
    WrapUp(r.almostEmptyCounter + Bit(read) - r.updatePrev, 2 * cfg.Size());
  }

  // The address registers.
  lemma ReaderAddr<T>(cfg: Config, r: ReadSide<T>, rdAck: bool, fed: nat)
    requires cfg.Valid()
    requires r.addr == StepAddr(cfg, fed + Lead(cfg, r))
    requires !cfg.UseMlab() ==> r.hardAddr == Slot(cfg, fed)
    requires !r.sclrnPrev ==> !Feed(cfg, r, rdAck)
    ensures var feed := Feed(cfg, r, rdAck);
            && AddrClock(cfg, r.addr, true, if cfg.UseMlab() then feed else feed || !r.sclrnPrev)
               == StepAddr(cfg, fed + Bit(feed) + (if cfg.UseMlab() then 0 else 1))
            && (!cfg.UseMlab() ==>
                  (if feed then Address.Bus(r.addr, Lows(cfg)) else r.hardAddr) == Slot(cfg, fed + Bit(feed)))
  {
    hide Feed;
    var feed := Feed(cfg, r, rdAck);
    AddrStep(cfg, fed + Lead(cfg, r), if cfg.UseMlab() then feed else feed || !r.sclrnPrev);
  }

  // Out of reset a port is clocked as the ring clocks it.
  lemma PortRuns(cfg: Config, p: Port, clearPrev: bool, event: bool, seen: Crossing)
    requires cfg.Valid()
    ensures PortClock(cfg, p, true, true, clearPrev, event, seen)
        == PortEdge(p, cfg.HiModulus(), event, seen.sample, seen.back)
  {
    hide PortEdge;
  }

  lemma ReaderEdge<T>(cfg: Config, r: ReadSide<T>, rdAck: bool, word: T, seen: Crossing, delivered: nat)
    requires cfg.Valid()
    requires ReadCounters(cfg, r, delivered)
    requires Stock(cfg, r) <= cfg.depth
    requires var next := AgentEdge(Reader(cfg, r), cfg.HiModulus(), cfg.pipeline, ReadFromFifo(r, rdAck), seen);
             0 <= next.buffer <= cfg.depth
    ensures var r' := ReadClock(cfg, r, true, true, rdAck, word, seen);
            && Reader(cfg, r') == AgentEdge(Reader(cfg, r), cfg.HiModulus(), cfg.pipeline, ReadFromFifo(r, rdAck), seen)
            && ReadCounters(cfg, r', delivered + Bit(ReadFromFifo(r, rdAck)))
  {
    hide Update, PortEdge, PortClock, AheadOfRead, TryFeed, PrefetchEnable, AddrClock, Negated, Slot, StepAddr,
        Address.Bus;
    PortRuns(cfg, r.port, true, ReadFromFifo(r, rdAck), seen);
    AddrFacts(cfg);
    var read := ReadFromFifo(r, rdAck);
    var r' := ReadClock(cfg, r, true, true, rdAck, word, seen);
    ReaderStock(cfg, r, rdAck, delivered);
    ReaderAddr(cfg, r, rdAck, delivered + Bit(r.validRaw));
    ReaderAlmost(cfg, r, read, ReadUsed(cfg, r'), delivered);
  }

  // Out of reset the crossing bits of an edge are those the ring allows.
  lemma CrossesOut(takeNewSample: Trio<bool>, takeNewBack: Trio<bool>, other: Port, other': Port, edge: bool,
                   hiModulus: nat, event: bool, seen: Crossing)
    requires hiModulus > 0
    requires other' == if edge then PortEdge(other, hiModulus, event, seen.sample, seen.back) else other
    ensures Crosses(SeenBy(takeNewSample, takeNewBack, other, edge, true), other, other')
  {
  }

  // Both sides out of reset.
  predicate Released(c: ResetSync.Chain) {
    c.WrAclrn() && c.WrSclrn() && c.RdAclrn() && c.RdSclrn()
  }

  // What one edge does to the ring and to the counters of both sides.
  lemma RunningRing<T>(cfg: Config, w: World<T>, e: Event<T>)
    requires cfg.Valid()
    requires Running(cfg, w) && Released(w.fifo.reset)
    requires e.Edge? && ClientKeepsPromise(cfg, w.fifo, e)
    ensures var w' := Next(cfg, w, e);
            && WriteCounters(cfg, w'.fifo.wr, |w'.pushed|)
            && ReadCounters(cfg, w'.fifo.rd, |w'.popped|)
            && RingInv(Writer(cfg, w'.fifo.wr), Reader(cfg, w'.fifo.rd), cfg.HiModulus(), cfg.pipeline, cfg.depth)
            && |w'.pushed| - |w'.popped|
               == Outstanding(w'.fifo.wr.port, w'.fifo.rd.port.rx, cfg.pipeline) + Stock(cfg, w'.fifo.rd)
  {
    hide WriteCounters, ReadCounters, RingInv, Outstanding, Words, Update, PortEdge, WriteClock, ReadClock, Stock,
        Crosses, SeenBy, RamOut, ResetSync.Edge;
    var f, c := w.fifo, w.fifo.reset;
    var f' := Clock(cfg, f, e);
    var wr, rd := e.clocks.Wr(), e.clocks.Rd();
    var write, read := WriteIntoFifo(cfg, f, e.wrReq), ReadFromFifo(f.rd, e.rdAck);
    var wrSeen := SeenBy(e.luck.wrSample, e.luck.wrBack, f.rd.port, rd, true);
    var rdSeen := SeenBy(e.luck.rdSample, e.luck.rdBack, f.wr.port, wr, true);
    var m := cfg.HiModulus();
    var a, b := Writer(cfg, f.wr), Reader(cfg, f.rd);
    var a' := if wr then AgentEdge(a, m, cfg.pipeline, write, wrSeen) else a;
    var b' := if rd then AgentEdge(b, m, cfg.pipeline, read, rdSeen) else b;
    RunningEvents(cfg, w, e);
    CrossesOut(e.luck.wrSample, e.luck.wrBack, f.rd.port, b'.port, rd, m, read, rdSeen);
    CrossesOut(e.luck.rdSample, e.luck.rdBack, f.wr.port, a'.port, wr, m, write, wrSeen);
    RingStep(a, b, a', b', m, cfg.pipeline, cfg.depth, wr, rd, wr && write, rd && read, wrSeen, rdSeen);
    RingBounds(a, b, m, cfg.pipeline, cfg.depth);
    RingBounds(a', b', m, cfg.pipeline, cfg.depth);
    if wr {
      WriterEdge(cfg, f.wr, write, wrSeen, |w.pushed|);
    }
    if rd {
      ReaderEdge(cfg, f.rd, e.rdAck, RamOut(cfg, f, wr && write, e.luck.noise), rdSeen, |w.popped|);
    }
  }

  lemma RingBounds(a: Agent, b: Agent, hiModulus: nat, pipeline: bool, tokens: nat)
    requires RingInv(a, b, hiModulus, pipeline, tokens)
    ensures 0 <= a.buffer <= tokens && 0 <= b.buffer <= tokens
    ensures Outstanding(a.port, b.port.rx, pipeline) >= 0
    ensures Outstanding(b.port, a.port.rx, pipeline) >= 0
    ensures a.buffer + Outstanding(a.port, b.port.rx, pipeline) + b.buffer <= tokens
  {
    hide LanesInv, ReadBackLeads, Flying;
  }

  // The internal write and read are the ones upstream and downstream see, and each has a token to use.
  lemma RunningEvents<T>(cfg: Config, w: World<T>, e: Event<T>)
    requires cfg.Valid()
    requires Running(cfg, w) && Released(w.fifo.reset)
    requires e.Edge? && ClientKeepsPromise(cfg, w.fifo, e)
    ensures var f := w.fifo;
            var write, read := WriteIntoFifo(cfg, f, e.wrReq), ReadFromFifo(f.rd, e.rdAck);
            && (Accepts(cfg, f, e) <==> e.clocks.Wr() && write)
            && (Delivers(f, e) <==> e.clocks.Rd() && read)
            && (e.clocks.Wr() && write ==> Writer(cfg, f.wr).buffer > 0)
            && (e.clocks.Rd() && read ==> Reader(cfg, f.rd).buffer > 0)
  {
    hide RingInv, Words;
    FlagsExact(cfg, w.fifo, |w.pushed|, |w.popped|);
  }
}
