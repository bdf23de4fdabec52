/** Nothing gets stuck in the dual-clock FIFO: once writing stops every accepted word reaches the
    reader, and once reading stops every place comes back to the writer, within a bounded number
    of rounds in which both clocks tick. */
module FifoProgress {
  import opened ToggleLane
  import opened Port
  import opened Parameters
  import opened TokenRing
  import opened LinkProgress
  import opened Fifo
  import opened FifoInvariant
  import opened FifoRunning
  import opened FifoReset
  import opened FifoSafety
  import opened FifoGuarantees
  import ResetSync

  // The link that carries written words to the reader, or the one that carries free places to the writer.
  datatype Direction = ToReader | ToWriter

  function Sender(d: Direction, f: Fifo): Port { if d.ToReader? then f.wr.port else f.rd.port }

  function Receiver(d: Direction, f: Fifo): Trio<Rx> { if d.ToReader? then f.rd.port.rx else f.wr.port.rx }

  predicate SenderTicks<T>(d: Direction, e: Event<T>) {
    e.Edge? && (if d.ToReader? then e.clocks.Wr() else e.clocks.Rd())
  }

  predicate ReceiverTicks<T>(d: Direction, e: Event<T>) {
    e.Edge? && (if d.ToReader? then e.clocks.Rd() else e.clocks.Wr())
  }

  function LinkWork(d: Direction, f: Fifo): int { Work(Sender(d, f), Receiver(d, f)) }

  // An edge, not a reset, at which nothing new enters the link.
  predicate Quiet<T>(d: Direction, cfg: Config, w: World<T>, e: Event<T>) {
    && e.Edge?
    && ClientKeepsPromise(cfg, w.fifo, e)
    && (if d.ToReader? then !Accepts(cfg, w.fifo, e) else !Delivers(w.fifo, e))
  }

  predicate QuietRun<T>(d: Direction, cfg: Config, w: World<T>, events: seq<Event<T>>)
    requires cfg.Valid()
    decreases |events|
  {
    events == [] || (Quiet(d, cfg, w, events[0]) && QuietRun(d, cfg, Next(cfg, w, events[0]), events[1..]))
  }

  // An edge, not a reset, with whatever traffic.
  predicate Traffic<T>(cfg: Config, w: World<T>, e: Event<T>) {
    e.Edge? && ClientKeepsPromise(cfg, w.fifo, e)
  }

  predicate TrafficRun<T>(cfg: Config, w: World<T>, events: seq<Event<T>>)
    requires cfg.Valid()
    decreases |events|
  {
    events == [] || (Traffic(cfg, w, events[0]) && TrafficRun(cfg, Next(cfg, w, events[0]), events[1..]))
  }

  // Words that have entered the link to the reader, or places that have entered the link to the writer.
  function Entered<T>(d: Direction, w: World<T>): nat {
    if d.ToReader? then |w.pushed| else |w.popped|
  }

  predicate SenderTicksIn<T>(d: Direction, events: seq<Event<T>>) {
    exists i :: 0 <= i < |events| && SenderTicks(d, events[i])
  }

  predicate ReceiverTicksIn<T>(d: Direction, events: seq<Event<T>>) {
    exists i :: 0 <= i < |events| && ReceiverTicks(d, events[i])
  }

  ghost predicate Live<T>(cfg: Config, w: World<T>)
    requires cfg.Valid()
  {
    Inv(cfg, w) && w.fifo.reset.WrAclrn()
  }

  lemma StaysLive<T>(cfg: Config, w: World<T>, e: Event<T>)
    requires cfg.Valid()
    requires Live(cfg, w) && e.Edge? && ClientKeepsPromise(cfg, w.fifo, e)
    ensures Live(cfg, Next(cfg, w, e))
    ensures Released(w.fifo.reset) && Running(cfg, w)
  {
    hide ReadFlush, WriteFlush, Running, ReadIdle, ResetSync.Edge, WriteClock, ReadClock, ResetSync.ChainInv;
    InvStep(cfg, w, e);
    ReleasedWhenBoth(w.fifo.reset);
    ChainOrder(w.fifo.reset, e.clocks.Wr(), e.clocks.Rd(), e.luck.wrReset, e.luck.rdReset);
  }

  // What each side sees of the other at an edge, out of reset.
  function WrSeen<T>(f: Fifo<T>, e: Event<T>): Crossing
    requires e.Edge?
  {
    SeenBy(e.luck.wrSample, e.luck.wrBack, f.rd.port, e.clocks.Rd(), true)
  }

  function RdSeen<T>(f: Fifo<T>, e: Event<T>): Crossing
    requires e.Edge?
  {
    SeenBy(e.luck.rdSample, e.luck.rdBack, f.wr.port, e.clocks.Wr(), true)
  }

  // A port with an event to count has room for it.
  lemma PortsHaveRoom<T>(cfg: Config, w: World<T>, e: Event<T>)
    requires cfg.Valid()
    requires Running(cfg, w) && Released(w.fifo.reset)
    requires e.Edge? && ClientKeepsPromise(cfg, w.fifo, e)
    ensures var f, m := w.fifo, cfg.HiModulus();
            && (Accepts(cfg, f, e) ==> !AtLimit(f.wr.port, m))
            && (Delivers(f, e) ==> !AtLimit(f.rd.port, m))
  {
    hide AtLimit, RingInv, Words, WriteCounters, ReadCounters, Accepts, Delivers, Outstanding, WriteIntoFifo;
    RunningEvents(cfg, w, e);
    var a, b, m := Writer(cfg, w.fifo.wr), Reader(cfg, w.fifo.rd), cfg.HiModulus();
    RingTurned(a, b, m, cfg.pipeline, cfg.depth);
    if Accepts(cfg, w.fifo, e) {
      NoOverflow(a, b, m, cfg.pipeline, cfg.depth);
    }
    if Delivers(w.fifo, e) {
      NoOverflow(b, a, m, cfg.pipeline, cfg.depth);
    }
  }

  lemma RingTurned(a: Agent, b: Agent, hiModulus: nat, pipeline: bool, tokens: nat)
    requires RingInv(a, b, hiModulus, pipeline, tokens)
    ensures RingInv(b, a, hiModulus, pipeline, tokens)
  {
    hide LinkInv, ReadBackLeads, Outstanding;
  }

  // One edge as the two ports see it, out of reset.
  lemma PortsStep<T>(cfg: Config, w: World<T>, e: Event<T>)
    requires cfg.Valid()
    requires Running(cfg, w) && Released(w.fifo.reset)
    requires e.Edge? && ClientKeepsPromise(cfg, w.fifo, e)
    ensures var f, f', m := w.fifo, Next(cfg, w, e).fifo, cfg.HiModulus();
            var wrSeen, rdSeen := WrSeen(f, e), RdSeen(f, e);
            && f'.wr.port == (if !e.clocks.Wr() then f.wr.port
                              else PortEdge(f.wr.port, m, Accepts(cfg, f, e), wrSeen.sample, wrSeen.back))
            && f'.rd.port == (if !e.clocks.Rd() then f.rd.port
                              else PortEdge(f.rd.port, m, Delivers(f, e), rdSeen.sample, rdSeen.back))
            && Crosses(wrSeen, f.rd.port, f'.rd.port)
            && Crosses(rdSeen, f.wr.port, f'.wr.port)
            && LinkInv(f.wr.port, f.rd.port.rx, m)
            && LinkInv(f.rd.port, f.wr.port.rx, m)
            && (Accepts(cfg, f, e) ==> e.clocks.Wr() && !AtLimit(f.wr.port, m))
            && (Delivers(f, e) ==> e.clocks.Rd() && !AtLimit(f.rd.port, m))
  {
    PortsHaveRoom(cfg, w, e);
    hide AtLimit, PortEdge, Crosses, SeenBy, RamOut, ResetSync.Edge, Words, LinkInv, ReadBackLeads, Outstanding,
         WriteCounters, ReadCounters, Update,
         AddrClock, WriteIntoFifo, Accepts, Delivers, PrefetchEnable, Feed, AheadOfRead;
    var f := w.fifo;
    var f' := Next(cfg, w, e).fifo;
    var wr, rd, m := e.clocks.Wr(), e.clocks.Rd(), cfg.HiModulus();
    RunningEvents(cfg, w, e);
    CrossesOut(e.luck.wrSample, e.luck.wrBack, f.rd.port, f'.rd.port, rd, m, ReadFromFifo(f.rd, e.rdAck), RdSeen(f, e));
    CrossesOut(e.luck.rdSample, e.luck.rdBack, f.wr.port, f'.wr.port, wr, m, WriteIntoFifo(cfg, f, e.wrReq),
               WrSeen(f, e));
  }

  // What one edge does to the work of the link.
  lemma EdgeStep<T>(d: Direction, cfg: Config, w: World<T>, e: Event<T>)
    requires cfg.Valid()
    requires Live(cfg, w) && Traffic(cfg, w, e)
    ensures var f, f' := w.fifo, Next(cfg, w, e).fifo;
            var entered := Entered(d, Next(cfg, w, e)) - Entered(d, w);
            && 0 <= entered <= 1 && (entered == 1 ==> SenderTicks(d, e))
            && LinkWork(d, f') <= LinkWork(d, f) + Worth * entered
            && (SenderTicks(d, e) && SenderDue(Sender(d, f), Receiver(d, f)) ==>
                  LinkWork(d, f') < LinkWork(d, f) + Worth * entered)
            && (ReceiverTicks(d, e) && ReceiverDue(Sender(d, f).tx, Receiver(d, f)) ==>
                  LinkWork(d, f') < LinkWork(d, f) + Worth * entered)
            && (LinkWork(d, f') == LinkWork(d, f) + Worth * entered ==>
                  && Sender(d, f').tx == Sender(d, f).tx && Receiver(d, f') == Receiver(d, f)
                  && (entered == 0 ==> Sender(d, f').left == Sender(d, f).left))
  {
    EnteredStep(d, cfg, w, e);
    hide Inv, Running, Next, Work, SenderDue, ReceiverDue, LinkInv, Accepts, Delivers, Sampled3, WrSeen, RdSeen,
        AtLimit, Entered;
    StaysLive(cfg, w, e);
    PortsStep(cfg, w, e);
    var f, f' := w.fifo, Next(cfg, w, e).fifo;
    var wrSeen, rdSeen := WrSeen(f, e), RdSeen(f, e);
    if d.ToReader? {
      WorkStep(f.wr.port, f.rd.port.rx, f'.wr.port, f'.rd.port.rx, cfg.HiModulus(), e.clocks.Wr(), e.clocks.Rd(),
               Accepts(cfg, f, e), wrSeen.sample, rdSeen.sample, wrSeen.back);
    } else {
      WorkStep(f.rd.port, f.wr.port.rx, f'.rd.port, f'.wr.port.rx, cfg.HiModulus(), e.clocks.Rd(), e.clocks.Wr(),
               Delivers(f, e), rdSeen.sample, wrSeen.sample, rdSeen.back);
    }
  }

  lemma EnteredStep<T>(d: Direction, cfg: Config, w: World<T>, e: Event<T>)
    requires cfg.Valid() && e.Edge?
    ensures Entered(d, Next(cfg, w, e)) ==
            Entered(d, w) + Bit(if d.ToReader? then Accepts(cfg, w.fifo, e) else Delivers(w.fifo, e))
  {
    hide Clock, Accepts, Delivers;
  }

  lemma LiveNext<T>(cfg: Config, w: World<T>, e: Event<T>)
    requires cfg.Valid()
    requires Live(cfg, w) && Traffic(cfg, w, e)
    ensures Live(cfg, Next(cfg, w, e))
  {
    hide Inv, Next;
    StaysLive(cfg, w, e);
  }

  lemma {:induction false} RunKeeps<T>(d: Direction, cfg: Config, w: World<T>, events: seq<Event<T>>)
    requires cfg.Valid()
    requires Live(cfg, w) && TrafficRun(cfg, w, events)
    ensures var v := Run(cfg, w, events);
            && Live(cfg, v) && Entered(d, v) >= Entered(d, w)
            && LinkWork(d, v.fifo) <= LinkWork(d, w.fifo) + Worth * (Entered(d, v) - Entered(d, w))
    decreases |events|
  {
    hide Live, LinkWork, Next, Traffic, Entered, SenderDue, ReceiverDue;
    if events != [] {
      LiveNext(cfg, w, events[0]);
      EdgeStep(d, cfg, w, events[0]);
      RunKeeps(d, cfg, Next(cfg, w, events[0]), events[1..]);
    }
  }

  // If an edge of the sender's clock is due, the first one that comes removes work, unless work was removed before.
  lemma {:induction false} SenderEdgeHelps<T>(d: Direction, cfg: Config, w: World<T>, events: seq<Event<T>>)
    requires cfg.Valid()
    requires Live(cfg, w) && TrafficRun(cfg, w, events)
    requires SenderDue(Sender(d, w.fifo), Receiver(d, w.fifo)) && SenderTicksIn(d, events)
    ensures var v := Run(cfg, w, events);
            LinkWork(d, v.fifo) < LinkWork(d, w.fifo) + Worth * (Entered(d, v) - Entered(d, w))
    decreases |events|
  {
    hide Live, LinkWork, Next, Traffic, SenderTicks, TxBusy, Entered;
    var e, w' := events[0], Next(cfg, w, events[0]);
    LiveNext(cfg, w, e);
    EdgeStep(d, cfg, w, e);
    if LinkWork(d, w'.fifo) < LinkWork(d, w.fifo) + Worth * (Entered(d, w') - Entered(d, w)) {
      RunKeeps(d, cfg, w', events[1..]);
    } else {
      var i :| 0 <= i < |events| && SenderTicks(d, events[i]);
      assert events[1..][i - 1] == events[i];
      SenderEdgeHelps(d, cfg, w', events[1..]);
    }
  }

  lemma {:induction false} ReceiverEdgeHelps<T>(d: Direction, cfg: Config, w: World<T>, events: seq<Event<T>>)
    requires cfg.Valid()
    requires Live(cfg, w) && TrafficRun(cfg, w, events)
    requires ReceiverDue(Sender(d, w.fifo).tx, Receiver(d, w.fifo)) && ReceiverTicksIn(d, events)
    ensures var v := Run(cfg, w, events);
            LinkWork(d, v.fifo) < LinkWork(d, w.fifo) + Worth * (Entered(d, v) - Entered(d, w))
    decreases |events|
  {
    hide Live, LinkWork, Next, Traffic, ReceiverTicks, ReceiverDue, Entered;
    var e, w' := events[0], Next(cfg, w, events[0]);
    LiveNext(cfg, w, e);
    EdgeStep(d, cfg, w, e);
    if LinkWork(d, w'.fifo) < LinkWork(d, w.fifo) + Worth * (Entered(d, w') - Entered(d, w)) {
      RunKeeps(d, cfg, w', events[1..]);
    } else {
      var i :| 0 <= i < |events| && ReceiverTicks(d, events[i]);
      assert events[1..][i - 1] == events[i];
      ReceiverEdgeHelps(d, cfg, w', events[1..]);
    }
  }

  // A round is any stretch of a run in which both clocks tick at least once.
  predicate IsRound<T>(d: Direction, events: seq<Event<T>>) {
    SenderTicksIn(d, events) && ReceiverTicksIn(d, events)
  }

  lemma RoundHelps<T>(d: Direction, cfg: Config, w: World<T>, events: seq<Event<T>>)
    requires cfg.Valid()
    requires Live(cfg, w) && TrafficRun(cfg, w, events) && IsRound(d, events)
    requires LinkWork(d, w.fifo) > 0
    ensures var v := Run(cfg, w, events);
            LinkWork(d, v.fifo) < LinkWork(d, w.fifo) + Worth * (Entered(d, v) - Entered(d, w))
  {
    hide Running, ReadFlush, WriteFlush, ReadIdle, ResetSync.ChainInv, TrafficRun, Run, SenderTicksIn,
         ReceiverTicksIn, SenderDue,
         ReceiverDue, Work, Entered;
    LiveLinks(cfg, w);
    SomeoneIsDue(Sender(d, w.fifo), Receiver(d, w.fifo), cfg.HiModulus());
    if SenderDue(Sender(d, w.fifo), Receiver(d, w.fifo)) {
      SenderEdgeHelps(d, cfg, w, events);
    } else {
      ReceiverEdgeHelps(d, cfg, w, events);
    }
  }

  // A quiet run is one on which nothing enters.
  lemma {:induction false} QuietIsTraffic<T>(d: Direction, cfg: Config, w: World<T>, events: seq<Event<T>>)
    requires cfg.Valid()
    requires QuietRun(d, cfg, w, events)
    ensures TrafficRun(cfg, w, events) && Entered(d, Run(cfg, w, events)) == Entered(d, w)
    decreases |events|
  {
    if events != [] {
      EnteredStep(d, cfg, w, events[0]);
      hide Next, ClientKeepsPromise, Accepts, Delivers, Entered;
      QuietIsTraffic(d, cfg, Next(cfg, w, events[0]), events[1..]);
    }
  }

  lemma QuietRunKeeps<T>(d: Direction, cfg: Config, w: World<T>, events: seq<Event<T>>)
    requires cfg.Valid()
    requires Live(cfg, w) && QuietRun(d, cfg, w, events)
    ensures Live(cfg, Run(cfg, w, events))
    ensures LinkWork(d, Run(cfg, w, events).fifo) <= LinkWork(d, w.fifo)
  {
    hide Live, LinkWork, QuietRun, TrafficRun, Run;
    QuietIsTraffic(d, cfg, w, events);
    RunKeeps(d, cfg, w, events);
  }

  lemma LiveLinks<T>(cfg: Config, w: World<T>)
    requires cfg.Valid()
    requires Live(cfg, w)
    ensures LinkInv(w.fifo.wr.port, w.fifo.rd.port.rx, cfg.HiModulus())
    ensures LinkInv(w.fifo.rd.port, w.fifo.wr.port.rx, cfg.HiModulus())
  {
    hide ReadFlush, WriteFlush, ReadIdle, ResetSync.ChainInv, LinkInv, ReadBackLeads, WriteCounters, ReadCounters,
        FifoInvariant.Words;
  }

  // A run given as one stretch after another.
  function RunRounds<T>(cfg: Config, w: World<T>, rounds: seq<seq<Event<T>>>): World<T>
    requires cfg.Valid()
    decreases |rounds|
  {
    if rounds == [] then w else RunRounds(cfg, Run(cfg, w, rounds[0]), rounds[1..])
  }

  predicate QuietRounds<T>(d: Direction, cfg: Config, w: World<T>, rounds: seq<seq<Event<T>>>)
    requires cfg.Valid()
    decreases |rounds|
  {
    rounds == [] || (IsRound(d, rounds[0]) && QuietRun(d, cfg, w, rounds[0])
                     && QuietRounds(d, cfg, Run(cfg, w, rounds[0]), rounds[1..]))
  }

  lemma {:induction false} RoundsFinish<T>(d: Direction, cfg: Config, w: World<T>, rounds: seq<seq<Event<T>>>)
    requires cfg.Valid()
    requires Live(cfg, w) && QuietRounds(d, cfg, w, rounds)
    ensures var v := RunRounds(cfg, w, rounds);
            Live(cfg, v) && (LinkWork(d, v.fifo) <= 0 || LinkWork(d, v.fifo) <= LinkWork(d, w.fifo) - |rounds|)
    decreases |rounds|
  {
    hide Live, LinkWork, QuietRun, TrafficRun, Run, IsRound;
    if rounds != [] {
      QuietRunKeeps(d, cfg, w, rounds[0]);
      if LinkWork(d, w.fifo) > 0 {
        QuietIsTraffic(d, cfg, w, rounds[0]);
        RoundHelps(d, cfg, w, rounds[0]);
      }
      RoundsFinish(d, cfg, Run(cfg, w, rounds[0]), rounds[1..]);
    }
  }

  // How much work a link can have at most.
  lemma WorkBound<T>(d: Direction, cfg: Config, w: World<T>)
    requires cfg.Valid()
    requires Live(cfg, w)
    ensures LinkWork(d, w.fifo) <= 25 * cfg.depth + 83
  {
    LaneWorkBound(Sender(d, w.fifo).tx.one, Receiver(d, w.fifo).one);
    LaneWorkBound(Sender(d, w.fifo).tx.two, Receiver(d, w.fifo).two);
    LaneWorkBound(Sender(d, w.fifo).tx.four, Receiver(d, w.fifo).four);
    hide LaneWork, ReadFlush, WriteFlush, ReadIdle, ResetSync.ChainInv, LinkInv, ReadBackLeads, WriteCounters,
        ReadCounters, Words, Value;
    RingBounds(Writer(cfg, w.fifo.wr), Reader(cfg, w.fifo.rd), cfg.HiModulus(), cfg.pipeline, cfg.depth);
  }

  lemma LaneWorkBound(tx: Tx, rx: Rx)
    ensures LaneWork(tx, rx) <= 27
  {
  }

  // A link without work holds nothing and gives its receiver nothing.
  lemma IdleLink(p: Port, rx: Trio<Rx>, hiModulus: nat, pipeline: bool)
    requires LinkInv(p, rx, hiModulus)
    requires Work(p, rx) <= 0
    ensures Outstanding(p, rx, pipeline) == 0
    ensures Update(rx, pipeline) == 0
  {
    IdleLane(p.tx.one, rx.one, pipeline);
    IdleLane(p.tx.two, rx.two, pipeline);
    IdleLane(p.tx.four, rx.four, pipeline);
    hide LaneInv, LaneWork, InFlight, Pulse;
  }

  lemma IdleLane(tx: Tx, rx: Rx, pipeline: bool)
    ensures LaneWork(tx, rx) == 0 ==> InFlight(tx, rx, pipeline) == 0 && !Pulse(rx, pipeline)
  {
  }

  // Over a quiet round without work the last update leaves the almost-empty logic, too.
  lemma {:induction false} IdleRun<T>(cfg: Config, w: World<T>, events: seq<Event<T>>)
    requires cfg.Valid()
    requires Live(cfg, w) && QuietRun(ToReader, cfg, w, events)
    requires LinkWork(ToReader, w.fifo) <= 0
    requires w.fifo.rd.updatePrev == 0 || ReceiverTicksIn(ToReader, events)
    ensures Run(cfg, w, events).fifo.rd.updatePrev == 0
    decreases |events|
  {
    hide Live, LinkWork, Next, Accepts, Delivers, Entered;
    if events != [] {
      var e, w' := events[0], Next(cfg, w, events[0]);
      LiveNext(cfg, w, e);
      EnteredStep(ToReader, cfg, w, e);
      EdgeStep(ToReader, cfg, w, e);
      IdleEdge(cfg, w, e);
      if w'.fifo.rd.updatePrev != 0 {
        var i :| 0 <= i < |events| && ReceiverTicks(ToReader, events[i]);
        assert events[1..][i - 1] == events[i];
      }
      IdleRun(cfg, w', events[1..]);
    }
  }

  lemma IdleEdge<T>(cfg: Config, w: World<T>, e: Event<T>)
    requires cfg.Valid()
    requires Live(cfg, w) && Quiet(ToReader, cfg, w, e)
    requires LinkWork(ToReader, w.fifo) <= 0
    ensures ReceiverTicks(ToReader, e) || w.fifo.rd.updatePrev == 0 ==> Next(cfg, w, e).fifo.rd.updatePrev == 0
  {
    LiveLinks(cfg, w);
    IdleLink(w.fifo.wr.port, w.fifo.rd.port.rx, cfg.HiModulus(), cfg.pipeline);
    hide Inv, Work, Update, PortClock, AddrClock, Outstanding;
  }

  // Nothing is under way to the reader any more, and its counters have taken in what came last.
  ghost predicate Arrived<T>(cfg: Config, v: World<T>)
    requires cfg.Valid()
  {
    Live(cfg, v) && LinkWork(ToReader, v.fifo) <= 0 && v.fifo.rd.updatePrev == 0
  }

  lemma Arrive<T>(cfg: Config, w: World<T>, rounds: seq<seq<Event<T>>>)
    requires cfg.Valid()
    requires Live(cfg, w) && QuietRounds(ToReader, cfg, w, rounds)
    requires |rounds| >= 25 * cfg.depth + 84
    ensures Arrived(cfg, RunRounds(cfg, w, rounds))
  {
    hide Live, LinkWork, QuietRun, Run, IsRound;
    var n := |rounds| - 1;
    var most, last := rounds[..n], rounds[n];
    RoundsSplit(ToReader, cfg, w, rounds, n);
    assert rounds[n..] == [last];
    var u := RunRounds(cfg, w, most);
    WorkBound(ToReader, cfg, w);
    RoundsFinish(ToReader, cfg, w, most);
    QuietRunKeeps(ToReader, cfg, u, last);
    LastRound(cfg, u, last);
    assert RunRounds(cfg, w, rounds) == Run(cfg, u, last);
  }

  /** Every accepted word reaches the reader. On any run, once the write side is out of reset: if from
      then on nothing more is written, after 25 * DEPTH + 84 rounds of both clocks the read side counts
      every word that is inside, so it shows empty only when everything accepted has been delivered. */
  lemma WordsArrive<T>(cfg: Config, w: World<T>, rounds: seq<seq<Event<T>>>)
    requires cfg.Valid()
    requires Live(cfg, w) && QuietRounds(ToReader, cfg, w, rounds)
    requires |rounds| >= 25 * cfg.depth + 84
    ensures var v := RunRounds(cfg, w, rounds);
            && v.fifo.rd.simUsed == |v.pushed| - |v.popped|
            && (RdEmpty(v.fifo) ==> v.popped == v.pushed)
  {
    hide Live, LinkWork, QuietRounds, RdEmpty;
    Arrive(cfg, w, rounds);
    ArrivedMeans(cfg, RunRounds(cfg, w, rounds));
  }

  lemma LastRound<T>(cfg: Config, u: World<T>, last: seq<Event<T>>)
    requires cfg.Valid()
    requires Live(cfg, u) && QuietRun(ToReader, cfg, u, last) && IsRound(ToReader, last)
    requires LinkWork(ToReader, u.fifo) <= 0
    ensures Run(cfg, u, last).fifo.rd.updatePrev == 0
  {
    hide Live, LinkWork, QuietRun, Run;
    IdleRun(cfg, u, last);
  }

  lemma ArrivedMeans<T>(cfg: Config, v: World<T>)
    requires cfg.Valid()
    requires Live(cfg, v) && LinkWork(ToReader, v.fifo) <= 0 && v.fifo.rd.updatePrev == 0
    ensures v.fifo.rd.simUsed == |v.pushed| - |v.popped|
    ensures RdEmpty(v.fifo) ==> v.popped == v.pushed
  {
    LiveLinks(cfg, v);
    IdleLink(v.fifo.wr.port, v.fifo.rd.port.rx, cfg.HiModulus(), cfg.pipeline);
    hide ReadFlush, WriteFlush, ReadIdle, RingInv, Outstanding, Work, LinkInv, Update, WriteCounters, Stored,
        StepAddr, Slot, Negated, ResetSync.ChainInv;
    ReadReleased(cfg, v);
  }

  lemma ReadReleased<T>(cfg: Config, v: World<T>)
    requires cfg.Valid()
    requires Live(cfg, v)
    ensures v.fifo.reset.RdAclrn()
  {
    hide ReadFlush, WriteFlush, ReadIdle, Running;
  }

  lemma {:induction false} RoundsSplit<T>(d: Direction, cfg: Config, w: World<T>, rounds: seq<seq<Event<T>>>, n: nat)
    requires cfg.Valid()
    requires n <= |rounds|
    requires QuietRounds(d, cfg, w, rounds)
    ensures QuietRounds(d, cfg, w, rounds[..n])
    ensures QuietRounds(d, cfg, RunRounds(cfg, w, rounds[..n]), rounds[n..])
    ensures RunRounds(cfg, w, rounds) == RunRounds(cfg, RunRounds(cfg, w, rounds[..n]), rounds[n..])
    decreases n
  {
    hide QuietRun, Run, IsRound;
    if n == 0 {
      assert rounds[..0] == [] && rounds[0..] == rounds;
    } else {
      var w' := Run(cfg, w, rounds[0]);
      RoundsSplit(d, cfg, w', rounds[1..], n - 1);
      assert rounds[..n][1..] == rounds[1..][..n - 1];
      assert rounds[1..][n - 1..] == rounds[n..];
      assert rounds[..n][0] == rounds[0];
    }
  }

  /** Every place comes back to the writer: if nothing more is read, after 25 * DEPTH + 83 rounds the
      write side counts exactly the words inside, so it shows full only when DEPTH words really are. */
  lemma PlacesReturn<T>(cfg: Config, w: World<T>, rounds: seq<seq<Event<T>>>)
    requires cfg.Valid()
    requires Live(cfg, w) && QuietRounds(ToWriter, cfg, w, rounds)
    requires |rounds| >= 25 * cfg.depth + 83
    ensures var v := RunRounds(cfg, w, rounds);
            && v.fifo.wr.simUsed == |v.pushed| - |v.popped|
            && (WrFull(cfg, v.fifo) <==> |v.pushed| - |v.popped| == cfg.depth)
  {
    hide Live, LinkWork, QuietRounds;
    WorkBound(ToWriter, cfg, w);
    RoundsFinish(ToWriter, cfg, w, rounds);
    ReturnedMeans(cfg, RunRounds(cfg, w, rounds));
  }

  lemma ReturnedMeans<T>(cfg: Config, v: World<T>)
    requires cfg.Valid()
    requires Live(cfg, v) && LinkWork(ToWriter, v.fifo) <= 0
    ensures v.fifo.wr.simUsed == |v.pushed| - |v.popped|
    ensures WrFull(cfg, v.fifo) <==> |v.pushed| - |v.popped| == cfg.depth
  {
    LiveLinks(cfg, v);
    IdleLink(v.fifo.rd.port, v.fifo.wr.port.rx, cfg.HiModulus(), cfg.pipeline);
    FlagsOfInv(cfg, v);
    hide ReadFlush, WriteFlush, ReadIdle, LinkInv, ReadBackLeads, Outstanding, Work, Update, ReadCounters, Words,
        ResetSync.ChainInv, WrAlmostFull, RdAlmostEmpty;
  }
}
