/** A link of the dual-clock FIFO does not stall under continuing traffic: as long as it has anything to do, what it
    hands over grows with the number of rounds, whatever both sides go on writing and reading. */
module FifoTraffic {
  import opened ToggleLane
  import opened Port
  import opened Parameters
  import opened TokenRing
  import opened LinkProgress
  import opened Fifo
  import opened FifoInvariant
  import opened FifoRunning
  import opened FifoSafety
  import opened FifoProgress
  import ResetSync

  // What has come out of a link: words that the reader's side has taken in, or places that the writer's side has.
  function HandedOver<T>(d: Direction, cfg: Config, w: World<T>): int {
    Entered(d, w) - Outstanding(Sender(d, w.fifo), Receiver(d, w.fifo), cfg.pipeline)
  }

  // Rounds of both clocks with any traffic, at each of which the link has something to do.
  predicate BusyRounds<T>(d: Direction, cfg: Config, w: World<T>, rounds: seq<seq<Event<T>>>)
    requires cfg.Valid()
    decreases |rounds|
  {
    rounds == [] ||
    (IsRound(d, rounds[0]) && TrafficRun(cfg, w, rounds[0]) && LinkWork(d, w.fifo) > 0
     && BusyRounds(d, cfg, Run(cfg, w, rounds[0]), rounds[1..]))
  }

  lemma {:induction false} BusyRoundsMove<T>(d: Direction, cfg: Config, w: World<T>, rounds: seq<seq<Event<T>>>)
    requires cfg.Valid()
    requires Live(cfg, w) && BusyRounds(d, cfg, w, rounds)
    ensures var v := RunRounds(cfg, w, rounds);
            && Live(cfg, v) && Entered(d, v) >= Entered(d, w)
            && LinkWork(d, v.fifo) + |rounds| <= LinkWork(d, w.fifo) + Worth * (Entered(d, v) - Entered(d, w))
    decreases |rounds|
  {
    hide Live, LinkWork, TrafficRun, Run, IsRound, Entered;
    if rounds != [] {
      RunKeeps(d, cfg, w, rounds[0]);
      RoundHelps(d, cfg, w, rounds[0]);
      BusyRoundsMove(d, cfg, Run(cfg, w, rounds[0]), rounds[1..]);
    }
  }

  // How much a link holds, and that it never has less than no work.
  lemma LinkBounds<T>(d: Direction, cfg: Config, w: World<T>)
    requires cfg.Valid()
    requires Live(cfg, w)
    ensures 0 <= Outstanding(Sender(d, w.fifo), Receiver(d, w.fifo), cfg.pipeline) <= cfg.depth
    ensures LinkWork(d, w.fifo) >= 0
  {
    hide LaneWork, ReadFlush, WriteFlush, ReadIdle, ResetSync.ChainInv, ReadBackLeads, WriteCounters, ReadCounters,
        Words, LanesInv;
    RingBounds(Writer(cfg, w.fifo.wr), Reader(cfg, w.fifo.rd), cfg.HiModulus(), cfg.pipeline, cfg.depth);
  }

  /** On any run out of reset, with any traffic: over rounds at which a link is never idle it hands over at least one
      event for every 26 rounds, up to a constant that depends on DEPTH only. */
  lemma LinkNeverStalls<T>(d: Direction, cfg: Config, w: World<T>, rounds: seq<seq<Event<T>>>)
    requires cfg.Valid()
    requires Live(cfg, w) && BusyRounds(d, cfg, w, rounds)
    ensures Worth * (HandedOver(d, cfg, RunRounds(cfg, w, rounds)) - HandedOver(d, cfg, w))
            >= |rounds| - (25 * cfg.depth + 83) - Worth * cfg.depth
  {
    hide Live, LinkWork, BusyRounds, RunRounds, Outstanding, Entered;
    BusyRoundsMove(d, cfg, w, rounds);
    WorkBound(d, cfg, w);
    LinkBounds(d, cfg, w);
    LinkBounds(d, cfg, RunRounds(cfg, w, rounds));
  }

  /** What the link to the reader has handed over is what was delivered and what can be; and what the link to the
      writer has handed over, less all words written, is the room that the writer knows of. */
  lemma HandedOverMeans<T>(cfg: Config, w: World<T>)
    requires cfg.Valid()
    requires Live(cfg, w)
    ensures HandedOver(ToReader, cfg, w) == |w.popped| + Stock(cfg, w.fifo.rd)
    ensures cfg.depth + HandedOver(ToWriter, cfg, w) - |w.pushed| == cfg.Size() - w.fifo.wr.usedWords
  {
    hide ReadFlush, WriteFlush, ReadIdle, ResetSync.ChainInv, ReadBackLeads, WriteCounters, ReadCounters, Words,
        LinkInv, Outstanding;
  }
}
