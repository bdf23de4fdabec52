/** The dual-clock FIFO does come out of reset: after a release, a bounded number of rounds of both clocks
    brings it, from any contents, to where it accepts and delivers words. */
module FifoStart {
  import opened Parameters
  import opened Fifo
  import opened FifoInvariant
  import opened FifoReset
  import opened FifoSafety
  import opened FifoProgress
  import opened ResetTiming
  import ResetSync

  // An event as the reset synchroniser sees it.
  function ForReset<T>(e: Event<T>): Happening {
    match e
    case ResetAssert => AssertNow
    case ResetRelease => ReleaseNow
    case Edge(clocks, _, _, _, luck) => Tick(clocks.Wr(), clocks.Rd(), luck.wrReset, luck.rdReset)
  }

  function AllForReset<T>(events: seq<Event<T>>): (hs: seq<Happening>)
    ensures |hs| == |events|
    ensures forall i | 0 <= i < |hs| :: hs[i] == ForReset(events[i])
  {
    seq(|events|, i requires 0 <= i < |events| => ForReset(events[i]))
  }

  lemma StepForReset<T>(cfg: Config, w: World<T>, e: Event<T>, v: Watch)
    requires cfg.Valid() && v.chain == w.fifo.reset
    ensures Observe(v, ForReset(e)).chain == Next(cfg, w, e).fifo.reset
  {
    hide ResetSync.Edge, WriteClock, ReadClock, RamOut, SeenBy, Accepts, Delivers, PortReset, WriteIntoFifo,
        ResetSync.Assert;
  }

  // The synchroniser goes its own way, whatever the rest of the FIFO does.
  lemma {:induction false} RunForReset<T>(cfg: Config, w: World<T>, events: seq<Event<T>>, v: Watch)
    requires cfg.Valid() && v.chain == w.fifo.reset
    ensures ObserveAll(v, AllForReset(events)).chain == Run(cfg, w, events).fifo.reset
    decreases |events|
  {
    hide Next, Observe, ForReset;
    if events != [] {
      StepForReset(cfg, w, events[0], v);
      assert AllForReset(events)[1..] == AllForReset(events[1..]);
      RunForReset(cfg, Next(cfg, w, events[0]), events[1..], Observe(v, ForReset(events[0])));
    }
  }

  // Stretches of a run without resets, in each of which both clocks tick.
  predicate Rounds<T>(cfg: Config, w: World<T>, rounds: seq<seq<Event<T>>>)
    requires cfg.Valid()
    decreases |rounds|
  {
    rounds == [] ||
    (ResetTiming.IsRound(AllForReset(rounds[0])) && PromiseKept(cfg, w, rounds[0])
     && Rounds(cfg, Run(cfg, w, rounds[0]), rounds[1..]))
  }

  function RoundsForReset<T>(rounds: seq<seq<Event<T>>>): seq<seq<Happening>> {
    seq(|rounds|, i requires 0 <= i < |rounds| => AllForReset(rounds[i]))
  }

  lemma {:induction false} RunRoundsForReset<T>(cfg: Config, w: World<T>, rounds: seq<seq<Event<T>>>, v: Watch)
    requires cfg.Valid() && v.chain == w.fifo.reset
    requires Inv(cfg, w) && Rounds(cfg, w, rounds)
    ensures forall i | 0 <= i < |rounds| :: ResetTiming.IsRound(RoundsForReset(rounds)[i])
    ensures ObserveRounds(v, RoundsForReset(rounds)).chain == RunRounds(cfg, w, rounds).fifo.reset
    ensures Inv(cfg, RunRounds(cfg, w, rounds))
    decreases |rounds|
  {
    hide Inv, Run, ResetTiming.IsRound, PromiseKept, ObserveAll, AllForReset;
    if rounds != [] {
      var h := AllForReset(rounds[0]);
      RunForReset(cfg, w, rounds[0], v);
      RunKeepsInv(cfg, w, rounds[0]);
      RunRoundsForReset(cfg, Run(cfg, w, rounds[0]), rounds[1..], ObserveAll(v, h));
      assert RoundsForReset(rounds)[1..] == RoundsForReset(rounds[1..]);
      forall i | 0 <= i < |rounds| ensures ResetTiming.IsRound(RoundsForReset(rounds)[i]) {
        if i > 0 {
          assert RoundsForReset(rounds)[i] == RoundsForReset(rounds[1..])[i - 1];
        }
      }
    }
  }

  /** From any contents, after a reset and anything that may follow: once the reset is released, thirteen rounds of
      both clocks later the write side is out of reset, and with it the whole FIFO runs. */
  lemma ComesAlive<T>(cfg: Config, start: World<T>, before: seq<Event<T>>, rounds: seq<seq<Event<T>>>)
    requires cfg.Valid()
    requires PromiseKept(cfg, Next(cfg, start, ResetAssert), before)
    requires var w := Run(cfg, Next(cfg, start, ResetAssert), before);
             w.fifo.reset.asyncResetn && Rounds(cfg, w, rounds)
    requires |rounds| >= 13
    ensures var w := Run(cfg, Next(cfg, start, ResetAssert), before);
            Live(cfg, RunRounds(cfg, w, rounds))
  {
    hide Next, Inv, Run, Rounds, PromiseKept, ObserveAll, WatchInv, AllForReset;
    var w0 := Next(cfg, start, ResetAssert);
    var w := Run(cfg, w0, before);
    var v0 := Watch(w0.fifo.reset, 0, 0);
    Cleared(cfg, start);
    AssertEstablishes(cfg, start);
    RunKeepsInv(cfg, w0, before);
    RunForReset(cfg, w0, before, v0);
    WatchRun(v0, AllForReset(before));
    var v := ObserveAll(v0, AllForReset(before));
    RunRoundsForReset(cfg, w, rounds, v);
    ResetEnds(v, RoundsForReset(rounds));
  }

  // The synchroniser after the first assertion.
  lemma Cleared<T>(cfg: Config, start: World<T>)
    requires cfg.Valid()
    ensures WatchInv(Watch(Next(cfg, start, ResetAssert).fifo.reset, 0, 0))
  {
  }
}
