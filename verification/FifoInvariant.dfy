/** The invariant of the dual-clock FIFO: in reset, how far the registers have been flushed; out of
    reset, the token ring, what the modular counters stand for, and where each word is. */
module FifoInvariant {
  import opened ToggleLane
  import opened Port
  import opened Parameters
  import opened TokenRing
  import opened Fifo
  import Address
  import ResetSync

  // Out of reset

  function Available(cfg: Config, r: ReadSide): int {
    if r.availableNegative == 0 then 0 else 2 * cfg.Size() - r.availableNegative
  }

  // Words the read side may still deliver: in the RAM, and in the prefetch.
  function Stock(cfg: Config, r: ReadSide): int { Available(cfg, r) + Bit(r.validRaw) }

  function Writer(cfg: Config, w: WriteSide): Agent { Agent(cfg.Size() - w.usedWords, w.port) }

  function Reader(cfg: Config, r: ReadSide): Agent { Agent(Stock(cfg, r), r.port) }

  function StepAddr(cfg: Config, n: nat): Address.Counter { Address.After(n, Lows(cfg), Highs(cfg)) }

  function Slot(cfg: Config, n: nat): nat { Address.Place(n, Lows(cfg), Highs(cfg)) }

  // The address register of the read side runs one ahead of the M20K's own, from the first edge out of reset.
  function Lead(cfg: Config, r: ReadSide): nat {
    if cfg.UseMlab() then 0 else Bit(r.sclrnPrev)
  }

  predicate WriteCounters(cfg: Config, w: WriteSide, written: nat)
    requires cfg.Valid()
  {
    && w.simUsed == w.usedWords - cfg.FullSlack()
    && w.usedWords <= cfg.Size()
    && w.almostFullCounter == w.usedWords + cfg.almostFullCutoff
    && w.addr == StepAddr(cfg, written)
  }

  // Words counted by the almost-empty logic, which learns of an update one clock late.
  function ReadUsed(cfg: Config, r: ReadSide): int { Stock(cfg, r) - r.updatePrev }

  // A possibly negative count as the (ADDR+1)-bit register holds it.
  function Negated(cfg: Config, d: int): int { if d < 0 then d + 2 * cfg.Size() else d }

  predicate ReadCounters(cfg: Config, r: ReadSide, delivered: nat) {
    && r.availableNegative < 2 * cfg.Size()
    && 0 <= Available(cfg, r) <= cfg.Size()
    && r.updatePrev <= Available(cfg, r)
    && (!r.validRaw ==> Available(cfg, r) == r.updatePrev)
    && r.simUsed == ReadUsed(cfg, r)
    && r.almostEmptyCounter == Negated(cfg, cfg.almostEmptyCutoff - ReadUsed(cfg, r))
    && r.addr == StepAddr(cfg, delivered + Bit(r.validRaw) + Lead(cfg, r))
    && (!cfg.UseMlab() ==> r.hardAddr == Slot(cfg, delivered + Bit(r.validRaw)))
    && (!r.sclrnPrev ==> Stock(cfg, r) == 0 && r.port.rx == RX3_CLEAR)
  }

  // Every accepted word that is not in the prefetch yet is still in its RAM slot.
  ghost predicate Stored<T>(cfg: Config, f: Fifo<T>, pushed: seq<T>, fed: nat) {
    forall i: nat {:trigger Slot(cfg, i)} | fed <= i < |pushed| ::
      Slot(cfg, i) in f.ram && f.ram[Slot(cfg, i)] == pushed[i]
  }

  ghost predicate Words<T>(cfg: Config, w: World<T>) {
    && |w.popped| + Bit(w.fifo.rd.validRaw) <= |w.pushed|
    && w.popped == w.pushed[..|w.popped|]
    && (w.fifo.rd.validRaw ==> w.fifo.rd.data == w.pushed[|w.popped|])
    && Stored(cfg, w.fifo, w.pushed, |w.popped| + Bit(w.fifo.rd.validRaw))
  }

  ghost predicate Running<T>(cfg: Config, w: World<T>)
    requires cfg.Valid()
  {
    var f := w.fifo;
    && WriteCounters(cfg, f.wr, |w.pushed|)
    && ReadCounters(cfg, f.rd, |w.popped|)
    && RingInv(Writer(cfg, f.wr), Reader(cfg, f.rd), cfg.HiModulus(), cfg.pipeline, cfg.depth)
    && |w.pushed| - |w.popped| == Outstanding(f.wr.port, f.rd.port.rx, cfg.pipeline) + Stock(cfg, f.rd)
    && Words(cfg, w)
  }

  // In reset

  predicate RxSyncClear(rx: Trio<Rx>) {
    Seen(rx) == Trio(false, false, false)
    && !rx.one.sync1 && !rx.one.sync2 && !rx.two.sync1 && !rx.two.sync2 && !rx.four.sync1 && !rx.four.sync2
  }

  predicate RxPrevClear(rx: Trio<Rx>) { !rx.one.prev && !rx.two.prev && !rx.four.prev }

  predicate RxPipeClear(rx: Trio<Rx>) { !rx.one.piped && !rx.two.piped && !rx.four.piped }

  // Between the assertion and the release of the write side's reset: what has been cleared so far.
  predicate WriteFlush(cfg: Config, c: ResetSync.Chain, w: WriteSide)
    requires cfg.Valid()
  {
    && w.port.tx == TX3_CLEAR
    && RxSyncClear(w.port.rx)
    && (c.wrAgainHead ==> RxPrevClear(w.port.rx))
    && (c.wrAgainBody0 ==> RxPipeClear(w.port.rx))
    && (c.wrAgainBody1 ==> WriteStart(cfg, w) && w.port.left.lo == 0 && w.port.left.hi == 0)
    && (c.wrAsyncPipe0 ==> !w.port.left.hiIncr && !w.port.left.hiDecr)
  }

  predicate WriteStart(cfg: Config, w: WriteSide)
    requires cfg.Valid()
  {
    && w.usedWords == cfg.FullSlack()
    && w.almostFullCounter == cfg.almostFullCutoff + cfg.FullSlack()
    && w.addr == Address.CLEAR
    && w.simUsed == 0
  }

  predicate ReadFlush(cfg: Config, c: ResetSync.Chain, r: ReadSide) {
    && r.port.tx == TX3_CLEAR
    && RxSyncClear(r.port.rx)
    && RxPrevClear(r.port.rx)
    && (c.rdHead ==> RxPipeClear(r.port.rx))
    && (c.rdBody1 ==> ReadStart(cfg, r) && r.addr == Address.CLEAR && r.port.left.lo == 0 && r.port.left.hi == 0)
    && (c.rdAsyncPipe0 ==> !r.port.left.hiIncr && !r.port.left.hiDecr && r.hardAddr == 0 && !r.sclrnPrev)
  }

  predicate ReadStart(cfg: Config, r: ReadSide) {
    r.availableNegative == 0 && !r.validRaw && r.updatePrev == 0 && r.almostEmptyCounter == cfg.almostEmptyCutoff
    && r.simUsed == 0
  }

  predicate PortClear(p: Port) { p == Port(LEFT_CLEAR, TX3_CLEAR, RX3_CLEAR) }

  // The read side is running and nothing has reached it yet.
  predicate ReadIdle(cfg: Config, r: ReadSide) {
    && ReadStart(cfg, r)
    && PortClear(r.port)
    && r.addr == StepAddr(cfg, Lead(cfg, r))
    && (!cfg.UseMlab() ==> r.hardAddr == 0)
  }

  ghost predicate Inv<T>(cfg: Config, w: World<T>)
    requires cfg.Valid()
  {
    var c := w.fifo.reset;
    && ResetSync.ChainInv(c)
    && (!c.RdAclrn() ==> ReadFlush(cfg, c, w.fifo.rd))
    && (!c.WrAclrn() ==> WriteFlush(cfg, c, w.fifo.wr) && w.pushed == [] && w.popped == [])
    && (c.RdAclrn() && !c.WrAclrn() ==> ReadIdle(cfg, w.fifo.rd))
    && (c.WrAclrn() ==> Running(cfg, w))
  }
}
