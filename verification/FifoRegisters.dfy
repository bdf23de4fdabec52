/** What single options and registers of the dual-clock FIFO are for: the held output, the extra pipeline stage, the
    toggles, which registers have which reset, and the promise that NEVER_OVERFLOWS asks for. */
module FifoRegisters {
  import opened ToggleLane
  import opened Port
  import opened Parameters
  import opened TokenRing
  import opened Fifo
  import opened FifoInvariant
  import opened FifoRunning
  import opened FifoWords
  import opened FifoReset
  import opened FifoSafety
  import Address
  import ResetSync

  // HOLD_READ_DATA_WHEN_EMPTY

  // While nothing is on offer the output shows the word delivered last.
  predicate Held<T(==)>(cfg: Config, w: World<T>) {
    cfg.holdData && !w.fifo.rd.validRaw && w.popped != [] ==> w.fifo.rd.data == w.popped[|w.popped| - 1]
  }

  lemma HeldStep<T>(cfg: Config, w: World<T>, e: Event<T>)
    requires cfg.Valid()
    requires Inv(cfg, w) && Held(cfg, w) && ClientKeepsPromise(cfg, w.fifo, e)
    ensures Held(cfg, Next(cfg, w, e))
  {
    hide Running, ReadFlush, WriteFlush, ReadIdle, ResetSync.ChainInv, ResetSync.Edge, WriteClock, RamOut, SeenBy,
         PortClock, AddrClock, Update, WriteIntoFifo, Msb, Wrap;
    QuietUnlessReleased(cfg, w, e);
  }

  // Before the write side runs nothing has been delivered, and from then on the read side is out of reset.
  lemma QuietUnlessReleased<T>(cfg: Config, w: World<T>, e: Event<T>)
    requires cfg.Valid()
    requires Inv(cfg, w)
    ensures w.fifo.reset.WrAclrn() ==> w.fifo.reset.RdAclrn() && w.fifo.reset.RdSclrn()
    ensures !w.fifo.reset.WrAclrn() ==> w.popped == [] && !Delivers(w.fifo, e)
  {
    hide Running, ReadFlush, WriteFlush;
    ReleasedWhenBoth(w.fifo.reset);
    if !w.fifo.reset.WrAclrn() {
      QuietInReset(cfg, w, e);
    }
  }

  lemma {:induction false} HeldRun<T>(cfg: Config, w: World<T>, events: seq<Event<T>>)
    requires cfg.Valid()
    requires Inv(cfg, w) && Held(cfg, w) && PromiseKept(cfg, w, events)
    ensures Held(cfg, Run(cfg, w, events))
    decreases |events|
  {
    hide Inv, Held, Next, ClientKeepsPromise;
    if events != [] {
      HeldStep(cfg, w, events[0]);
      InvStep(cfg, w, events[0]);
      HeldRun(cfg, Next(cfg, w, events[0]), events[1..]);
    }
  }

  /** With the hold option, on every run, the output keeps the last word delivered until the next one is on offer. */
  lemma HoldsLastWord<T>(cfg: Config, start: World<T>, events: seq<Event<T>>)
    requires cfg.Valid() && cfg.holdData
    requires PromiseKept(cfg, Next(cfg, start, ResetAssert), events)
    ensures var w := Run(cfg, Next(cfg, start, ResetAssert), events);
            !w.fifo.rd.validRaw && w.popped != [] ==> w.fifo.rd.data == w.popped[|w.popped| - 1]
  {
    hide Inv, Clock, ClientKeepsPromise;
    AssertEstablishes(cfg, start);
    HeldRun(cfg, Next(cfg, start, ResetAssert), events);
  }

  // PIPELINE_AFTER_CLOCK_CROSS

  /** The extra stage delays an update by one edge of the receiving clock, and does nothing else. */
  lemma PipelineDelays(rx: Trio<Rx>, sample: Trio<bool>)
    ensures Update(Rx3Edge(rx, sample), true) == Update(rx, false)
  {
  }

  // Toggles

  function Flipped(tx: Trio<Tx>, tx': Trio<Tx>): Trio<bool> {
    Trio(tx'.one.toggle != tx.one.toggle, tx'.two.toggle != tx.two.toggle, tx'.four.toggle != tx.four.toggle)
  }

  /** At an edge out of reset each toggle flips exactly if the counter has a bit for it and its last flip has been read
      back; so with all three read back the low bits of the counter are sent, and four more if there are any. */
  lemma FlipsExactly(p: Port, hiModulus: nat, event: bool, sample: Trio<bool>, back: Trio<bool>)
    requires hiModulus > 0 && p.left.lo < 4
    ensures var p' := PortEdge(p, hiModulus, event, sample, back);
            var flips := Flipped(p.tx, p'.tx);
            && (flips.one <==> p.left.lo in {1, 3} && p.tx.one.toggle == p.tx.one.back3)
            && (flips.two <==> p.left.lo in {2, 3} && p.tx.two.toggle == p.tx.two.back3)
            && (flips.four <==> p.left.hi > 0 && p.tx.four.toggle == p.tx.four.back3)
            && (Ready(p.tx.one) && Ready(p.tx.two) && Ready(p.tx.four) ==>
                  Weight(flips) == p.left.lo + (if p.left.hi > 0 then 4 else 0) && p'.left.lo == Bit(event))
  {
  }

  // Which registers have which reset

  /** An assertion of the reset clears the synchroniser chain's flops with an asynchronous clear, all toggles and all
      synchroniser stages, and the read side's previous values, without any clock; everything else keeps its value. */
  lemma AssertClearsExactly<T>(cfg: Config, f: Fifo<T>)
    requires cfg.Valid()
    ensures var g := Step(cfg, f, ResetAssert);
            && g.ram == f.ram && g.reset == ResetSync.Assert(f.reset)
            && g.wr == f.wr.(port := g.wr.port) && g.rd == f.rd.(port := g.rd.port)
            && g.wr.port.left == f.wr.port.left && g.rd.port.left == f.rd.port.left
            && g.wr.port.tx == g.rd.port.tx == TX3_CLEAR
            && RxSyncClear(g.wr.port.rx) && RxSyncClear(g.rd.port.rx) && RxPrevClear(g.rd.port.rx)
            && SamePrev(g.wr.port.rx, f.wr.port.rx)
            && SamePiped(g.wr.port.rx, f.wr.port.rx) && SamePiped(g.rd.port.rx, f.rd.port.rx)
  {
    hide ResetSync.Assert;
  }

  predicate SamePrev(rx: Trio<Rx>, rx': Trio<Rx>) {
    rx.one.prev == rx'.one.prev && rx.two.prev == rx'.two.prev && rx.four.prev == rx'.four.prev
  }

  predicate SamePiped(rx: Trio<Rx>, rx': Trio<Rx>) {
    rx.one.piped == rx'.one.piped && rx.two.piped == rx'.two.piped && rx.four.piped == rx'.four.piped
  }

  /** The chain: what an assertion clears, and the two flops per clock that have no clear. */
  lemma ChainClearsExactly(c: ResetSync.Chain)
    ensures ResetSync.Assert(c) ==
            ResetSync.Chain(false, false, false, false, false, false, false, c.rdSyncPipe0, c.rdSyncPipe1, false, false,
                            false, false, false, c.wrSyncPipe0, c.wrSyncPipe1, false, false)
  {
  }

  /** The delayed carry and borrow of a leftover counter, and the previous value of the write side, have no reset at
      all: an edge in reset computes them as ever. */
  lemma WithoutReset(cfg: Config, p: Port, aclrn: bool, sclrn: bool, event: bool, seen: Crossing)
    requires cfg.Valid()
    ensures var p' := PortClock(cfg, p, aclrn, sclrn, false, event, seen);
            var q := PortClock(cfg, p, true, true, false, event, seen);
            && p'.left.hiIncr == q.left.hiIncr && p'.left.hiDecr == q.left.hiDecr
            && SamePrev(p'.rx, q.rx) && SamePiped(p'.rx, q.rx)
            && (sclrn ==> p'.left == q.left)
            && (aclrn ==> p'.tx == q.tx && p'.rx == q.rx)
  {
    hide LeftEdge, ToSend;
  }

  // NEVER_OVERFLOWS

  /** Without NEVER_OVERFLOWS nothing is asked of the client. */
  lemma {:induction false} NothingAsked<T>(cfg: Config, w: World<T>, events: seq<Event<T>>)
    requires cfg.Valid() && !cfg.neverOverflows
    ensures PromiseKept(cfg, w, events)
    decreases |events|
  {
    if events != [] {
      NothingAsked(cfg, Next(cfg, w, events[0]), events[1..]);
    }
  }

  /** With it the promise is needed: a write while full, with no place coming back at that edge, makes the write side
      count more than DEPTH words, and the invariant is lost. */
  lemma PromiseIsNeeded<T>(cfg: Config, w: World<T>, e: Event<T>)
    requires cfg.Valid() && cfg.neverOverflows
    requires Running(cfg, w) && Released(w.fifo.reset)
    requires e.Edge? && e.clocks.Wr() && e.wrReq && WrFull(cfg, w.fifo)
    requires Update(w.fifo.wr.port.rx, cfg.pipeline) == 0
    ensures var w' := Next(cfg, w, e);
            && !Accepts(cfg, w.fifo, e) && WriteAddr(cfg, w.fifo) in w'.fifo.ram
            && w'.fifo.ram[WriteAddr(cfg, w.fifo)] == e.wrData
            && w'.fifo.wr.simUsed == cfg.depth + 1 && !Running(cfg, w')
  {
    hide RingInv, Words, Outstanding, ReadCounters, PortClock, AddrClock, ReadClock, RamOut, SeenBy,
         ResetSync.Edge, Update;
    FullCount(cfg, w);
  }

  lemma FullCount<T>(cfg: Config, w: World<T>)
    requires cfg.Valid() && Running(cfg, w) && Released(w.fifo.reset) && WrFull(cfg, w.fifo)
    ensures w.fifo.wr.simUsed == cfg.depth && w.fifo.wr.usedWords == cfg.Size()
    ensures cfg.FullSlack() == cfg.Size() - cfg.depth
  {
    hide RingInv, Words, Outstanding;
    AddrFacts(cfg);
    FlagsExact(cfg, w.fifo, |w.pushed|, |w.popped|);
  }
}
