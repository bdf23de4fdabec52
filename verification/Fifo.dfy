/** The dual-clock FIFO register by register: what every flop holds after an edge of either clock
    or of both at once, after an assertion and after a release of the asynchronous reset. */
module Fifo {
  import opened ToggleLane
  import opened Port
  import opened Parameters
  import opened TokenRing
  import Address
  import ResetSync

  // Registers clocked by wr_clock. simUsed is the unbounded counter of the simulation-only checks.
  datatype WriteSide = WriteSide(usedWords: nat, almostFullCounter: nat, addr: Address.Counter, port: Port,
                                 simUsed: int)

  // Registers clocked by rd_clock, with the RAM's own address and output registers.
  datatype ReadSide<T> = ReadSide(availableNegative: nat, validRaw: bool, updatePrev: nat, almostEmptyCounter: nat,
                                  addr: Address.Counter, sclrnPrev: bool, hardAddr: nat, data: T, port: Port,
                                      simUsed: int)

  datatype Fifo<T> = Fifo(reset: ResetSync.Chain, wr: WriteSide, rd: ReadSide<T>, ram: map<nat, T>)

  datatype Clocks = WrOnly | RdOnly | Both
  {
    predicate Wr() { !RdOnly? }

    predicate Rd() { !WrOnly? }
  }

  // How each race of two simultaneous edges is decided: for every crossing bit whether the new
  // value is seen, and what the RAM puts out where its content is not defined.
  datatype Luck<T> = Luck(wrSample: Trio<bool>, wrBack: Trio<bool>, rdSample: Trio<bool>, rdBack: Trio<bool>,
                          wrReset: bool, rdReset: bool, noise: T)

  datatype Event<T> =
    | ResetAssert
    | ResetRelease
    | Edge(clocks: Clocks, wrReq: bool, wrData: T, rdAck: bool, luck: Luck<T>)

  // Registers of ADDR+1 bits: their most significant bit, and their sums.

  predicate Msb(cfg: Config, x: nat) { x / cfg.Size() % 2 == 1 }

  function Wrap(cfg: Config, x: int): nat { x % (2 * cfg.Size()) }

  // Outputs

  predicate WrFullRaw(cfg: Config, f: Fifo) { Msb(cfg, f.wr.usedWords) }

  predicate WrFull(cfg: Config, f: Fifo) { !f.reset.WrAclrn() || WrFullRaw(cfg, f) }

  predicate WrAlmostFull(cfg: Config, f: Fifo) {
    if cfg.almostFullCutoff == 0 then WrFull(cfg, f)
    else !f.reset.WrAclrn() || Msb(cfg, f.wr.almostFullCounter)
  }

  predicate RdEmpty(f: Fifo) { !f.reset.RdAclrn() || !f.rd.validRaw }

  predicate RdAlmostEmpty(cfg: Config, f: Fifo) {
    if cfg.almostEmptyCutoff == 0 then RdEmpty(f)
    else !f.reset.RdAclrn() || !Msb(cfg, f.rd.almostEmptyCounter)
  }

  // What the simulation-only checks of the source compare the two flags with.

  predicate SimAlmostFull(cfg: Config, f: Fifo) {
    !f.reset.WrAclrn() || f.wr.simUsed >= cfg.depth - cfg.almostFullCutoff
  }

  predicate SimAlmostEmpty(cfg: Config, f: Fifo) {
    !f.reset.RdAclrn() || f.rd.simUsed <= cfg.almostEmptyCutoff
  }

  // Internal signals

  predicate WriteIntoFifo(cfg: Config, f: Fifo, wrReq: bool) {
    if cfg.neverOverflows then wrReq else wrReq && !WrFullRaw(cfg, f)
  }

  // The most significant bit of the negated count.
  predicate AheadOfRead(cfg: Config, r: ReadSide) { Msb(cfg, r.availableNegative) }

  predicate TryFeed(r: ReadSide, rdAck: bool) { !r.validRaw || rdAck }

  predicate Feed(cfg: Config, r: ReadSide, rdAck: bool) { AheadOfRead(cfg, r) && TryFeed(r, rdAck) }

  predicate PrefetchEnable(cfg: Config, r: ReadSide, rdAck: bool) {
    if !cfg.holdData then TryFeed(r, rdAck) else Feed(cfg, r, rdAck)
  }

  predicate ReadFromFifo(r: ReadSide, rdAck: bool) { r.validRaw && rdAck }

  // Crossing bits

  function Mix(takeNew: Trio<bool>, before: Trio<bool>, after: Trio<bool>): Trio<bool> {
    Trio(if takeNew.one then after.one else before.one,
         if takeNew.two then after.two else before.two,
         if takeNew.four then after.four else before.four)
  }

  function NextToggles(p: Port, edge: bool, aclrn: bool): Trio<bool> {
    if !edge then Toggles(p.tx)
    else if !aclrn then Trio(false, false, false)
    else
      var send := ToSend(p.left, p.tx);
      Trio(p.tx.one.toggle != send.one, p.tx.two.toggle != send.two, p.tx.four.toggle != send.four)
  }

  function NextSeen(p: Port, edge: bool, aclrn: bool): Trio<bool> {
    if !edge then Seen(p.rx)
    else if !aclrn then Trio(false, false, false)
    else Trio(p.rx.one.sync2, p.rx.two.sync2, p.rx.four.sync2)
  }

  function SeenBy(takeNewSample: Trio<bool>, takeNewBack: Trio<bool>, other: Port, edge: bool, aclrn: bool): Crossing {
    Crossing(Mix(takeNewSample, Toggles(other.tx), NextToggles(other, edge, aclrn)),
             Mix(takeNewBack, Seen(other.rx), NextSeen(other, edge, aclrn)))
  }

  // The port of either side. The low and high bits of the leftover counter have a synchronous
  // reset, its delayed carry and borrow have none; toggles and synchronisers are cleared
  // asynchronously; the previous value is cleared on the read side only.

  function RxCleared(rx: Rx, clearPrev: bool): Rx {
    Rx(false, false, false, !clearPrev && rx.prev, rx.piped)
  }

  function Rx3Cleared(rx: Trio<Rx>, clearPrev: bool): Trio<Rx> {
    Trio(RxCleared(rx.one, clearPrev), RxCleared(rx.two, clearPrev), RxCleared(rx.four, clearPrev))
  }

  function PortReset(p: Port, clearPrev: bool): Port {
    Port(p.left, TX3_CLEAR, Rx3Cleared(p.rx, clearPrev))
  }

  function PortClock(cfg: Config, p: Port, aclrn: bool, sclrn: bool, clearPrev: bool, event: bool, seen: Crossing): Port
    requires cfg.Valid()
  {
    var next := PortEdge(p, cfg.HiModulus(), event, seen.sample, seen.back);
    var left := if sclrn then next.left else next.left.(lo := 0, hi := 0);
    if aclrn then Port(left, next.tx, next.rx)
    else Port(left, TX3_CLEAR, Rx3Cleared(next.rx, clearPrev))
  }

  function Lows(cfg: Config): nat
    ensures Lows(cfg) > 0
  {
    Pow2(cfg.AddrBits() / 2)
  }

  function Highs(cfg: Config): nat
    ensures Highs(cfg) > 0
  {
    Pow2(cfg.AddrBits() - cfg.AddrBits() / 2)
  }

  function AddrClock(cfg: Config, c: Address.Counter, sclrn: bool, incr: bool): Address.Counter {
    if !sclrn then Address.CLEAR else Address.CounterEdge(c, Lows(cfg), Highs(cfg), incr)
  }

  function WriteAddr(cfg: Config, f: Fifo): nat { Address.Bus(f.wr.addr, Lows(cfg)) }

  // The address at which the RAM is read: for an M20K the register inside the block.
  function ReadAddr(cfg: Config, r: ReadSide): nat {
    if cfg.UseMlab() then Address.Bus(r.addr, Lows(cfg)) else r.hardAddr
  }

  function WriteClock(cfg: Config, w: WriteSide, aclrn: bool, sclrn: bool, write: bool, seen: Crossing): WriteSide
    requires cfg.Valid()
  {
    var update := Update(w.port.rx, cfg.pipeline);
    WriteSide(
      if !sclrn then cfg.FullSlack() else Wrap(cfg, w.usedWords + Bit(write) - update),
      if !sclrn then cfg.almostFullCutoff + cfg.FullSlack() else Wrap(cfg, w.almostFullCounter + Bit(write) - update),
      AddrClock(cfg, w.addr, sclrn, write),
      PortClock(cfg, w.port, aclrn, sclrn, false, write, seen),
      if !sclrn then 0 else w.simUsed + Bit(write) - update)
  }

  function ReadClock<T>(cfg: Config, r: ReadSide<T>, aclrn: bool, sclrn: bool, rdAck: bool, word: T,
                        seen: Crossing): ReadSide<T>
    requires cfg.Valid()
  {
    var update := Update(r.port.rx, cfg.pipeline);
    var feed := Feed(cfg, r, rdAck);
    var read := ReadFromFifo(r, rdAck);
    ReadSide(
      if !sclrn then 0 else Wrap(cfg, r.availableNegative + Bit(feed) - update),
      sclrn && (AheadOfRead(cfg, r) || (r.validRaw && !rdAck)),
      if !sclrn then 0 else update,
      if !sclrn then cfg.almostEmptyCutoff
      else Wrap(cfg, r.almostEmptyCounter + Bit(read) - r.updatePrev),
      AddrClock(cfg, r.addr, sclrn, if cfg.UseMlab() then feed else feed || !r.sclrnPrev),
      sclrn,
      if feed || !sclrn then Address.Bus(r.addr, Lows(cfg)) else r.hardAddr,
      if PrefetchEnable(cfg, r, rdAck) then word else r.data,
      PortClock(cfg, r.port, aclrn, sclrn, true, read, seen),
      if !sclrn then 0 else r.simUsed + r.updatePrev - Bit(read))
  }

  // A read of a word that was never written, or that is being written at the same moment, gives anything.
  function RamOut<T>(cfg: Config, f: Fifo<T>, writing: bool, noise: T): T {
    var a := ReadAddr(cfg, f.rd);
    if a in f.ram && !(writing && a == WriteAddr(cfg, f)) then f.ram[a] else noise
  }

  function Clock<T>(cfg: Config, f: Fifo<T>, e: Event<T>): Fifo<T>
    requires cfg.Valid()
    requires e.Edge?
  {
    var wr, rd, c := e.clocks.Wr(), e.clocks.Rd(), f.reset;
    var write := WriteIntoFifo(cfg, f, e.wrReq);
    var wrSeen := SeenBy(e.luck.wrSample, e.luck.wrBack, f.rd.port, rd, c.RdAclrn());
    var rdSeen := SeenBy(e.luck.rdSample, e.luck.rdBack, f.wr.port, wr, c.WrAclrn());
    Fifo(ResetSync.Edge(c, wr, rd, e.luck.wrReset, e.luck.rdReset),
         if wr then WriteClock(cfg, f.wr, c.WrAclrn(), c.WrSclrn(), write, wrSeen) else f.wr,
         if rd then ReadClock(cfg, f.rd, c.RdAclrn(), c.RdSclrn(), e.rdAck, RamOut(cfg, f, wr && write, e.luck.noise),
                              rdSeen)
         else f.rd,
         if wr && write then f.ram[WriteAddr(cfg, f) := e.wrData] else f.ram)
  }

  function Step<T>(cfg: Config, f: Fifo<T>, e: Event<T>): Fifo<T>
    requires cfg.Valid()
  {
    match e
    case ResetAssert =>
      f.(reset := ResetSync.Assert(f.reset),
         wr := f.wr.(port := PortReset(f.wr.port, false)),
         rd := f.rd.(port := PortReset(f.rd.port, true)))
    case ResetRelease => f.(reset := ResetSync.Release(f.reset))
    case Edge(_, _, _, _, _) => Clock(cfg, f, e)
  }

  // What upstream and downstream see

  predicate Accepts<T>(cfg: Config, f: Fifo<T>, e: Event<T>) {
    e.Edge? && e.clocks.Wr() && e.wrReq && !WrFull(cfg, f)
  }

  predicate Delivers<T>(f: Fifo<T>, e: Event<T>) {
    e.Edge? && e.clocks.Rd() && e.rdAck && !RdEmpty(f)
  }

  // With NEVER_OVERFLOWS the client promises not to write while the FIFO is full or in reset.
  predicate ClientKeepsPromise<T>(cfg: Config, f: Fifo<T>, e: Event<T>) {
    cfg.neverOverflows && e.Edge? && e.clocks.Wr() && e.wrReq ==> !WrFull(cfg, f)
  }

  // The FIFO with the words it has accepted and delivered since the last reset.
  datatype World<T> = World(fifo: Fifo<T>, pushed: seq<T>, popped: seq<T>)

  function Next<T>(cfg: Config, w: World<T>, e: Event<T>): World<T>
    requires cfg.Valid()
  {
    World(Step(cfg, w.fifo, e),
          if e.ResetAssert? then [] else if Accepts(cfg, w.fifo, e) then w.pushed + [e.wrData] else w.pushed,
          if e.ResetAssert? then [] else if Delivers(w.fifo, e) then w.popped + [w.fifo.rd.data] else w.popped)
  }
}
