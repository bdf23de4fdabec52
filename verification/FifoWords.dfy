/** Which words the FIFO holds: every accepted word stays in its slot until the prefetch takes it,
    and the prefetch always holds the next word to deliver. */
module FifoWords {
  import opened ToggleLane
  import opened Port
  import opened Parameters
  import opened TokenRing
  import opened Fifo
  import opened FifoInvariant
  import opened FifoRunning
  import Address
  import ResetSync

  // Slots of words in the FIFO, and the slot of the next write, are all different.
  lemma SlotsDiffer(cfg: Config, i: nat, j: nat)
    requires cfg.Valid()
    requires i < j < i + cfg.Size()
    ensures Slot(cfg, i) != Slot(cfg, j)
  {
    AddrFacts(cfg);
    Address.PlacesDiffer(i, j, Lows(cfg), Highs(cfg));
  }

  // The words not yet fed to the prefetch, and the room in front of a write.
  lemma Occupancy<T>(cfg: Config, w: World<T>)
    requires cfg.Valid()
    requires Running(cfg, w)
    ensures var fed := |w.popped| + Bit(w.fifo.rd.validRaw);
            && Available(cfg, w.fifo.rd) <= |w.pushed| - fed <= cfg.Size()
            && (Writer(cfg, w.fifo.wr).buffer > 0 ==> |w.pushed| - fed < cfg.Size())
  {
    hide RingInv, Words, Outstanding;
    AddrFacts(cfg);
    RingBounds(Writer(cfg, w.fifo.wr), Reader(cfg, w.fifo.rd), cfg.HiModulus(), cfg.pipeline, cfg.depth);
  }

  /** No write lands on a slot whose word the prefetch has not taken. */
  lemma WriteIsHarmless<T>(cfg: Config, w: World<T>, data: T, write: bool)
    requires cfg.Valid()
    requires Running(cfg, w)
    requires write ==> Writer(cfg, w.fifo.wr).buffer > 0
    ensures var fed := |w.popped| + Bit(w.fifo.rd.validRaw);
            var ram' := if write then w.fifo.ram[WriteAddr(cfg, w.fifo) := data] else w.fifo.ram;
            var pushed' := if write then w.pushed + [data] else w.pushed;
            && (forall i: nat {:trigger Slot(cfg, i)} | fed <= i < |pushed'| ::
                  Slot(cfg, i) in ram' && ram'[Slot(cfg, i)] == pushed'[i])
            && (forall i: nat {:trigger Slot(cfg, i)} | write && fed <= i < |w.pushed| ::
                  Slot(cfg, i) != WriteAddr(cfg, w.fifo))
  {
    hide RingInv, Outstanding, ReadCounters, Available;
    Occupancy(cfg, w);
    assert WriteAddr(cfg, w.fifo) == Slot(cfg, |w.pushed|);
    var fed := |w.popped| + Bit(w.fifo.rd.validRaw);
    if write {
      forall i: nat | fed <= i < |w.pushed| ensures Slot(cfg, i) != Slot(cfg, |w.pushed|) {
        SlotsDiffer(cfg, i, |w.pushed|);
      }
    }
  }

  // When the prefetch loads, the RAM puts out the next accepted word, with either kind of RAM.
  lemma FeedLoadsNext<T>(cfg: Config, w: World<T>, write: bool, noise: T)
    requires cfg.Valid()
    requires Running(cfg, w)
    requires write ==> Writer(cfg, w.fifo.wr).buffer > 0
    requires Available(cfg, w.fifo.rd) > 0
    ensures var fed := |w.popped| + Bit(w.fifo.rd.validRaw);
            fed < |w.pushed| && RamOut(cfg, w.fifo, write, noise) == w.pushed[fed]
  {
    hide RingInv, Outstanding, Available;
    Occupancy(cfg, w);
    var fed := |w.popped| + Bit(w.fifo.rd.validRaw);
    assert ReadAddr(cfg, w.fifo.rd) == Slot(cfg, fed);
    if write {
      assert WriteAddr(cfg, w.fifo) == Slot(cfg, |w.pushed|);
      SlotsDiffer(cfg, fed, |w.pushed|);
    }
  }

  // How many words are fed, whichever way the prefetch moves.
  lemma FedStep<T>(cfg: Config, r: ReadSide<T>, rdAck: bool, word: T, seen: Crossing, delivered: nat)
    requires cfg.Valid()
    requires ReadCounters(cfg, r, delivered)
    ensures AheadOfRead(cfg, r) <==> Available(cfg, r) > 0
    ensures var r' := ReadClock(cfg, r, true, true, rdAck, word, seen);
            var feed := Feed(cfg, r, rdAck);
            && delivered + Bit(ReadFromFifo(r, rdAck)) + Bit(r'.validRaw) == delivered + Bit(r.validRaw) + Bit(feed)
            && (feed ==> r'.validRaw && r'.data == word)
            && (!feed && r'.validRaw ==> r.validRaw && !rdAck && r'.data == r.data)
  {
    hide Update, PortClock, AddrClock;
    AddrFacts(cfg);
    TopBit(r.availableNegative, cfg.Size());
  }

  lemma WordsStep<T>(cfg: Config, w: World<T>, e: Event<T>)
    requires cfg.Valid()
    requires Running(cfg, w) && Released(w.fifo.reset)
    requires e.Edge? && ClientKeepsPromise(cfg, w.fifo, e)
    ensures Words(cfg, Next(cfg, w, e))
  {
    hide RingInv, WriteCounters, Outstanding, Update, WriteClock, ReadClock, Available, SeenBy, RamOut, ResetSync.Edge,
         WriteIntoFifo, Accepts, Delivers, Slot, Feed, AheadOfRead, ReadAddr, WriteAddr;
    var f, w' := w.fifo, Next(cfg, w, e);
    var wr, rd := e.clocks.Wr(), e.clocks.Rd();
    var write := WriteIntoFifo(cfg, f, e.wrReq);
    RunningEvents(cfg, w, e);
    WriteIsHarmless(cfg, w, e.wrData, wr && write);
    var word := RamOut(cfg, f, wr && write, e.luck.noise);
    if rd {
      FedStep(cfg, f.rd, e.rdAck, word, SeenBy(e.luck.rdSample, e.luck.rdBack, f.wr.port, wr, f.reset.WrAclrn()),
              |w.popped|);
      if Available(cfg, f.rd) > 0 {
        FeedLoadsNext(cfg, w, wr && write, e.luck.noise);
      } else {
        FeedNeedsWords(cfg, f.rd, e.rdAck);
      }
    }
  }

  lemma FeedNeedsWords(cfg: Config, r: ReadSide, rdAck: bool)
    ensures Feed(cfg, r, rdAck) ==> AheadOfRead(cfg, r)
  {
  }

  /** Out of reset, every edge of either clock, or both at once, keeps the whole invariant. */
  lemma RunningStep<T>(cfg: Config, w: World<T>, e: Event<T>)
    requires cfg.Valid()
    requires Running(cfg, w) && Released(w.fifo.reset)
    requires e.Edge? && ClientKeepsPromise(cfg, w.fifo, e)
    ensures Running(cfg, Next(cfg, w, e))
  {
    hide RingInv, WriteCounters, ReadCounters, Outstanding, Words, Clock, Available;
    RunningRing(cfg, w, e);
    WordsStep(cfg, w, e);
  }
}
