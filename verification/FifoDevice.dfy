/** The dual-clock FIFO as a device with registers that clock edges and the reset update in place. */
module FifoDevice {
  import opened ToggleLane
  import opened Port
  import opened Parameters
  import opened TokenRing
  import opened Fifo
  import opened FifoInvariant
  import opened FifoReset
  import opened FifoSafety
  import Address
  import ResetSync

  class DualClockFifo<T> {
    const cfg: Config

    var reset: ResetSync.Chain

    // wr_clock
    var wrUsedWords: nat
    var wrAlmostFullCounter: nat
    var wrAddr: Address.Counter
    var wrLeftover: Leftover
    var wrTx: Trio<Tx>
    var wrRx: Trio<Rx>
    var simWrUsed: int

    // rd_clock
    var rdAvailableNegative: nat
    var rdValidRaw: bool
    var rdUpdatePrev: nat
    var rdAlmostEmptyCounter: nat
    var rdAddr: Address.Counter
    var rdSclrnPrev: bool
    var rdHardAddr: nat
    var rdData: T
    var rdLeftover: Leftover
    var rdTx: Trio<Tx>
    var rdRx: Trio<Rx>
    var simRdUsed: int

    var ram: map<nat, T>

    ghost var pushed: seq<T>
    ghost var popped: seq<T>

    function WrState(): WriteSide
      reads `wrUsedWords, `wrAlmostFullCounter, `simWrUsed, `wrAddr, `wrLeftover, `wrTx, `wrRx
    {
      WriteSide(wrUsedWords, wrAlmostFullCounter, wrAddr, Port(wrLeftover, wrTx, wrRx), simWrUsed)
    }

    function RdState(): ReadSide<T>
      reads `rdAvailableNegative, `rdValidRaw, `rdUpdatePrev, `rdAlmostEmptyCounter, `rdAddr, `rdSclrnPrev, `rdHardAddr,
            `rdData, `rdLeftover, `rdTx, `rdRx, `simRdUsed
    {
      ReadSide(rdAvailableNegative, rdValidRaw, rdUpdatePrev, rdAlmostEmptyCounter, rdAddr, rdSclrnPrev, rdHardAddr,
               rdData, Port(rdLeftover, rdTx, rdRx), simRdUsed)
    }

    function State(): Fifo<T>
      reads this
    {
      Fifo(reset, WrState(), RdState(), ram)
    }

    ghost function Abstract(): World<T>
      reads this
    {
      World(State(), pushed, popped)
    }

    ghost predicate Valid()
      reads this
    {
      cfg.Valid() && Inv(cfg, Abstract())
    }

    // Power-up with anything in the registers and in the RAM, and the reset asserted.
    constructor (cfg: Config, contents: Fifo<T>)
      requires cfg.Valid()
      ensures Valid()
      ensures this.cfg == cfg
      ensures pushed == [] && popped == []
      ensures State() == Step(cfg, contents, ResetAssert)
    {
      this.cfg := cfg;
      reset := contents.reset;
      wrUsedWords, wrAlmostFullCounter, wrAddr := contents.wr.usedWords, contents.wr.almostFullCounter,
          contents.wr.addr;
      wrLeftover, wrTx, wrRx := contents.wr.port.left, contents.wr.port.tx, contents.wr.port.rx;
      simWrUsed := contents.wr.simUsed;
      rdAvailableNegative, rdValidRaw, rdUpdatePrev := contents.rd.availableNegative, contents.rd.validRaw,
          contents.rd.updatePrev;
      rdAlmostEmptyCounter, rdAddr, rdSclrnPrev := contents.rd.almostEmptyCounter, contents.rd.addr,
          contents.rd.sclrnPrev;
      rdHardAddr, rdData := contents.rd.hardAddr, contents.rd.data;
      rdLeftover, rdTx, rdRx := contents.rd.port.left, contents.rd.port.tx, contents.rd.port.rx;
      simRdUsed := contents.rd.simUsed;
      ram := contents.ram;
      pushed, popped := [], [];
      new;
      AssertReset();
    }

    // The asynchronous clears, without any clock.
    method ClearAsync()
      modifies `reset, `wrTx, `wrRx, `rdTx, `rdRx
      ensures reset == ResetSync.Assert(old(reset))
      ensures WrState() == old(WrState()).(port := PortReset(old(WrState()).port, false))
      ensures RdState() == old(RdState()).(port := PortReset(old(RdState()).port, true))
    {
      hide Rx3Cleared, ResetSync.Assert;
      reset := ResetSync.Assert(reset);
      wrTx, wrRx := TX3_CLEAR, Rx3Cleared(wrRx, false);
      rdTx, rdRx := TX3_CLEAR, Rx3Cleared(rdRx, true);
    }

    // The asynchronous reset goes low.
    method AssertReset()
      requires cfg.Valid()
      modifies this
      ensures Valid()
      ensures Abstract() == Next(cfg, old(Abstract()), ResetAssert)
    {
      hide Inv, PortReset, ResetSync.Assert, Accepts, Delivers, Clock, WrState, RdState;
      AssertEstablishes(cfg, Abstract());
      ClearAsync();
      pushed, popped := [], [];
    }

    method ReleaseReset()
      requires Valid()
      modifies this
      ensures Valid()
      ensures Abstract() == Next(cfg, old(Abstract()), ResetRelease)
      ensures pushed == old(pushed) && popped == old(popped)
    {
      hide Inv;
      InvStep(cfg, Abstract(), ResetRelease);
      reset := ResetSync.Release(reset);
    }

    // The occupancy counters of wr_clock.
    method OnWrCounters(sclrn: bool, write: bool, update: nat)
      requires cfg.Valid()
      modifies `wrUsedWords, `wrAlmostFullCounter, `simWrUsed
      ensures wrUsedWords == if sclrn then Wrap(cfg, old(wrUsedWords) + Bit(write) - update) else cfg.FullSlack()
      ensures wrAlmostFullCounter == if sclrn then Wrap(cfg, old(wrAlmostFullCounter) + Bit(write) - update)
                                     else cfg.almostFullCutoff + cfg.FullSlack()
      ensures simWrUsed == if sclrn then old(simWrUsed) + Bit(write) - update else 0
    {
      hide Wrap;
      wrUsedWords := Wrap(cfg, wrUsedWords + Bit(write) - update);
      wrAlmostFullCounter := Wrap(cfg, wrAlmostFullCounter + Bit(write) - update);
      simWrUsed := simWrUsed + Bit(write) - update;
      if !sclrn {
        wrUsedWords, wrAlmostFullCounter := cfg.FullSlack(), cfg.almostFullCutoff + cfg.FullSlack();
        simWrUsed := 0;
      }
    }

    // All registers of wr_clock, and the write port of the RAM, on an edge of wr_clock.
    method OnWrClock(aclrn: bool, sclrn: bool, write: bool, data: T, seen: Crossing)
      requires cfg.Valid()
      modifies `wrUsedWords, `wrAlmostFullCounter, `simWrUsed, `wrAddr, `wrLeftover, `wrTx, `wrRx, `ram
      ensures WrState() == WriteClock(cfg, old(WrState()), aclrn, sclrn, write, seen)
      ensures ram == if write then old(ram)[Address.Bus(old(WrState()).addr, Lows(cfg)) := data] else old(ram)
    {
      hide PortClock, Update, AddrClock, Wrap, Address.Bus, Lows;
      var port := PortClock(cfg, Port(wrLeftover, wrTx, wrRx), aclrn, sclrn, false, write, seen);
      ram := if write then ram[Address.Bus(wrAddr, Lows(cfg)) := data] else ram;
      OnWrCounters(sclrn, write, Update(wrRx, cfg.pipeline));
      wrAddr := AddrClock(cfg, wrAddr, sclrn, write);
      wrLeftover, wrTx, wrRx := port.left, port.tx, port.rx;
    }

    // Words available, and the almost-empty counters.
    method OnRdCounters(sclrn: bool, feed: bool, read: bool, update: nat)
      requires cfg.Valid()
      modifies `rdAvailableNegative, `rdUpdatePrev, `rdAlmostEmptyCounter, `simRdUsed
      ensures rdAvailableNegative == if sclrn then Wrap(cfg, old(rdAvailableNegative) + Bit(feed) - update) else 0
      ensures rdUpdatePrev == if sclrn then update else 0
      ensures rdAlmostEmptyCounter == if sclrn then Wrap(cfg, old(rdAlmostEmptyCounter) + Bit(read) - old(rdUpdatePrev))
                                      else cfg.almostEmptyCutoff
      ensures simRdUsed == if sclrn then old(simRdUsed) + old(rdUpdatePrev) - Bit(read) else 0
    {
      hide Wrap;
      rdAvailableNegative := Wrap(cfg, rdAvailableNegative + Bit(feed) - update);
      rdAlmostEmptyCounter := Wrap(cfg, rdAlmostEmptyCounter + Bit(read) - rdUpdatePrev);
      simRdUsed := simRdUsed + rdUpdatePrev - Bit(read);
      rdUpdatePrev := update;
      if !sclrn {
        rdAvailableNegative, rdAlmostEmptyCounter, simRdUsed, rdUpdatePrev := 0, cfg.almostEmptyCutoff, 0, 0;
      }
    }

    // The prefetch: its valid bit, and the output register of the RAM.
    method OnRdPrefetch(sclrn: bool, ahead: bool, rdAck: bool, enable: bool, ramOut: T)
      modifies `rdValidRaw, `rdData
      ensures rdValidRaw == (sclrn && (ahead || (old(rdValidRaw) && !rdAck)))
      ensures rdData == if enable then ramOut else old(rdData)
    {
      if ahead {
        rdValidRaw := true;
      } else if rdAck {
        rdValidRaw := false;
      }
      if !sclrn {
        rdValidRaw := false;
      }
      if enable {
        rdData := ramOut;
      }
    }

    // The address register, and the one inside an M20K that follows it.
    method OnRdAddress(sclrn: bool, feed: bool)
      requires cfg.Valid()
      modifies `rdAddr, `rdHardAddr, `rdSclrnPrev
      ensures rdAddr == AddrClock(cfg, old(rdAddr), sclrn, if cfg.UseMlab() then feed else feed || !old(rdSclrnPrev))
      ensures rdHardAddr == if feed || !sclrn then Address.Bus(old(rdAddr), Lows(cfg)) else old(rdHardAddr)
      ensures rdSclrnPrev == sclrn
    {
      hide AddrClock, Address.Bus, Lows;
      if feed || !sclrn {
        rdHardAddr := Address.Bus(rdAddr, Lows(cfg));
      }
      rdAddr := AddrClock(cfg, rdAddr, sclrn, if cfg.UseMlab() then feed else feed || !rdSclrnPrev);
      rdSclrnPrev := sclrn;
    }

    // All registers of rd_clock on an edge of rd_clock.
    method OnRdClock(aclrn: bool, sclrn: bool, rdAck: bool, ramOut: T, seen: Crossing)
      requires cfg.Valid()
      modifies `rdAvailableNegative, `rdValidRaw, `rdUpdatePrev, `rdAlmostEmptyCounter, `rdAddr, `rdSclrnPrev,
               `rdHardAddr,
               `rdData, `rdLeftover, `rdTx, `rdRx, `simRdUsed
      ensures RdState() == ReadClock(cfg, old(RdState()), aclrn, sclrn, rdAck, ramOut, seen)
    {
      hide PortClock, Update, AddrClock, Wrap, Msb, Address.Bus, Lows;
      var ahead := Msb(cfg, rdAvailableNegative);
      var tryFeed := !rdValidRaw || rdAck;
      var feed, read := ahead && tryFeed, rdValidRaw && rdAck;
      var port := PortClock(cfg, Port(rdLeftover, rdTx, rdRx), aclrn, sclrn, true, read, seen);
      OnRdCounters(sclrn, feed, read, Update(rdRx, cfg.pipeline));
      OnRdPrefetch(sclrn, ahead, rdAck, if cfg.holdData then feed else tryFeed, ramOut);
      OnRdAddress(sclrn, feed);
      rdLeftover, rdTx, rdRx := port.left, port.tx, port.rx;
    }

    // What an edge is made of.
    lemma ClockIs(f: Fifo<T>, clocks: Clocks, wrReq: bool, wrData: T, rdAck: bool, luck: Luck<T>)
      requires cfg.Valid()
      ensures var f', c := Clock(cfg, f, Edge(clocks, wrReq, wrData, rdAck, luck)), f.reset;
              var write := WriteIntoFifo(cfg, f, wrReq);
              && f'.reset == ResetSync.Edge(c, clocks.Wr(), clocks.Rd(), luck.wrReset, luck.rdReset)
              && (clocks.Wr() ==> f'.wr == WriteClock(cfg, f.wr, c.WrAclrn(), c.WrSclrn(), write,
                                                      SeenBy(luck.wrSample, luck.wrBack, f.rd.port, clocks.Rd(),
                                                             c.RdAclrn())))
              && (!clocks.Wr() ==> f'.wr == f.wr)
              && (clocks.Rd() ==> f'.rd == ReadClock(cfg, f.rd, c.RdAclrn(), c.RdSclrn(), rdAck,
                                                     RamOut(cfg, f, clocks.Wr() && write, luck.noise),
                                                     SeenBy(luck.rdSample, luck.rdBack, f.wr.port, clocks.Wr(),
                                                            c.WrAclrn())))
              && (!clocks.Rd() ==> f'.rd == f.rd)
              && f'.ram == if clocks.Wr() && write then f.ram[Address.Bus(f.wr.addr, Lows(cfg)) := wrData] else f.ram
    {
      hide WriteClock, ReadClock, SeenBy, ResetSync.Edge, RamOut, WriteIntoFifo;
    }

    // An edge of wr_clock, of rd_clock, or of both at once. Everything is computed from the values before the edge.
    method Clocked(clocks: Clocks, wrReq: bool, wrData: T, rdAck: bool, luck: Luck<T>)
      requires cfg.Valid()
      modifies `reset, `wrUsedWords, `wrAlmostFullCounter, `simWrUsed, `wrAddr, `wrLeftover, `wrTx, `wrRx, `ram,
               `rdAvailableNegative, `rdValidRaw, `rdUpdatePrev, `rdAlmostEmptyCounter, `rdAddr, `rdSclrnPrev,
               `rdHardAddr,
               `rdData, `rdLeftover, `rdTx, `rdRx, `simRdUsed
      ensures State() == Clock(cfg, old(State()), Edge(clocks, wrReq, wrData, rdAck, luck))
    {
      hide WriteClock, ReadClock, SeenBy, ResetSync.Edge, RamOut, WriteIntoFifo, Address.Bus, Lows, Clock, WrState,
          RdState;
      ClockIs(State(), clocks, wrReq, wrData, rdAck, luck);
      var wr, rd := clocks.Wr(), clocks.Rd();
      var wrAclrn, rdAclrn, wrSclrn, rdSclrn := reset.WrAclrn(), reset.RdAclrn(), reset.WrSclrn(), reset.RdSclrn();
      var write := WriteIntoFifo(cfg, State(), wrReq);
      var wrSeen := SeenBy(luck.wrSample, luck.wrBack, RdState().port, rd, rdAclrn);
      var rdSeen := SeenBy(luck.rdSample, luck.rdBack, WrState().port, wr, wrAclrn);
      var ramOut := RamOut(cfg, State(), wr && write, luck.noise);
      if wr {
        OnWrClock(wrAclrn, wrSclrn, write, wrData, wrSeen);
      }
      if rd {
        OnRdClock(rdAclrn, rdSclrn, rdAck, ramOut, rdSeen);
      }
      reset := ResetSync.Edge(reset, wr, rd, luck.wrReset, luck.rdReset);
    }

    lemma NextIs(w: World<T>, clocks: Clocks, wrReq: bool, wrData: T, rdAck: bool, luck: Luck<T>)
      requires cfg.Valid()
      ensures var e := Edge(clocks, wrReq, wrData, rdAck, luck);
              && (Accepts(cfg, w.fifo, e) <==> clocks.Wr() && wrReq && !WrFull(cfg, w.fifo))
              && (Delivers(w.fifo, e) <==> clocks.Rd() && rdAck && !RdEmpty(w.fifo))
              && Next(cfg, w, e) == World(Clock(cfg, w.fifo, e),
                                          if Accepts(cfg, w.fifo, e) then w.pushed + [wrData] else w.pushed,
                                          if Delivers(w.fifo, e) then w.popped + [w.fifo.rd.data] else w.popped)
    {
      hide Clock, WrFull, RdEmpty;
    }

    // The same, as upstream and downstream see it.
    method Tick(clocks: Clocks, wrReq: bool, wrData: T, rdAck: bool, luck: Luck<T>)
      returns (accepted: bool, delivered: bool, word: T)
      requires Valid()
      requires ClientKeepsPromise(cfg, State(), Edge(clocks, wrReq, wrData, rdAck, luck))
      modifies this
      ensures Valid()
      ensures Abstract() == Next(cfg, old(Abstract()), Edge(clocks, wrReq, wrData, rdAck, luck))
      ensures accepted <==> clocks.Wr() && wrReq && !old(WrFull(cfg, State()))
      ensures delivered <==> clocks.Rd() && rdAck && !old(RdEmpty(State()))
      ensures pushed == if accepted then old(pushed) + [wrData] else old(pushed)
      ensures popped == if delivered then old(popped) + [word] else old(popped)
      ensures delivered ==> |old(popped)| < |old(pushed)| && word == old(pushed)[|old(popped)|]
      ensures popped <= pushed && |pushed| - |popped| <= cfg.depth
    {
      hide Inv, Clock, WrFull, WrState, RdEmpty, Next;
      ghost var before := Abstract();
      NextIs(before, clocks, wrReq, wrData, rdAck, luck);
      InvStep(cfg, before, Edge(clocks, wrReq, wrData, rdAck, luck));
      InvMeans(cfg, before);
      accepted := clocks.Wr() && wrReq && !WrFull(cfg, State());
      delivered := clocks.Rd() && rdAck && !RdEmpty(State());
      word := rdData;
      Clocked(clocks, wrReq, wrData, rdAck, luck);
      pushed := if accepted then pushed + [wrData] else pushed;
      popped := if delivered then popped + [word] else popped;
      InvMeans(cfg, Abstract());
    }
  }
}
