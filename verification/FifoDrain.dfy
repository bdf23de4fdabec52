/** A reader that keeps acknowledging gets every word of the dual-clock FIFO. */
module FifoDrain {
  import opened Parameters
  import opened Fifo
  import opened FifoInvariant
  import opened FifoSafety
  import opened FifoProgress

  // The reader takes whatever is on offer.
  predicate Acknowledges<T>(events: seq<Event<T>>) {
    forall i | 0 <= i < |events| && events[i].Edge? && events[i].clocks.Rd() :: events[i].rdAck
  }

  // An edge without a write: what it does to the words, and to the offer.
  lemma QuietEdge<T>(cfg: Config, w: World<T>, e: Event<T>)
    requires cfg.Valid()
    requires Quiet(ToReader, cfg, w, e) && Live(cfg, w)
    ensures var w' := Next(cfg, w, e);
            && w'.pushed == w.pushed
            && |w'.popped| == |w.popped| + (if Delivers(w.fifo, e) then 1 else 0)
            && (!ReceiverTicks(ToReader, e) ==> RdEmpty(w'.fifo) == RdEmpty(w.fifo))
            && (ReceiverTicks(ToReader, e) && e.rdAck && !RdEmpty(w.fifo) ==> Delivers(w.fifo, e))
  {
    hide Inv, ReadClock, WriteClock, RamOut, SeenBy, WriteIntoFifo;
  }

  lemma {:induction false} WordsOfRun<T>(cfg: Config, w: World<T>, events: seq<Event<T>>)
    requires cfg.Valid()
    requires Live(cfg, w) && QuietRun(ToReader, cfg, w, events)
    ensures Run(cfg, w, events).pushed == w.pushed && |Run(cfg, w, events).popped| >= |w.popped|
    decreases |events|
  {
    hide Live, ClientKeepsPromise, Accepts, Next;
    if events != [] {
      LiveNext(cfg, w, events[0]);
      QuietEdge(cfg, w, events[0]);
      WordsOfRun(cfg, Next(cfg, w, events[0]), events[1..]);
    }
  }

  // A round with a word on offer delivers it.
  lemma {:induction false} RoundDelivers<T>(cfg: Config, w: World<T>, events: seq<Event<T>>)
    requires cfg.Valid()
    requires Live(cfg, w) && QuietRun(ToReader, cfg, w, events)
    requires Acknowledges(events) && ReceiverTicksIn(ToReader, events) && !RdEmpty(w.fifo)
    ensures |Run(cfg, w, events).popped| > |w.popped|
    decreases |events|
  {
    hide Live, ClientKeepsPromise, Accepts, Next, RdEmpty, Delivers;
    var e, w' := events[0], Next(cfg, w, events[0]);
    LiveNext(cfg, w, e);
    QuietEdge(cfg, w, e);
    if ReceiverTicks(ToReader, e) {
      WordsOfRun(cfg, w', events[1..]);
    } else {
      var i :| 0 <= i < |events| && ReceiverTicks(ToReader, events[i]);
      assert events[1..][i - 1] == events[i];
      RoundDelivers(cfg, w', events[1..]);
    }
  }

  lemma StaysArrived<T>(cfg: Config, w: World<T>, events: seq<Event<T>>)
    requires cfg.Valid()
    requires Arrived(cfg, w) && QuietRun(ToReader, cfg, w, events)
    ensures Arrived(cfg, Run(cfg, w, events))
  {
    hide Live, LinkWork, QuietRun, Run;
    QuietRunKeeps(ToReader, cfg, w, events);
    IdleRun(cfg, w, events);
  }

  lemma {:induction false} RoundsDeliver<T>(cfg: Config, w: World<T>, rounds: seq<seq<Event<T>>>)
    requires cfg.Valid()
    requires Arrived(cfg, w) && QuietRounds(ToReader, cfg, w, rounds)
    requires forall i | 0 <= i < |rounds| :: Acknowledges(rounds[i])
    ensures var v := RunRounds(cfg, w, rounds);
            Arrived(cfg, v) && v.pushed == w.pushed
            && (v.popped == v.pushed || |v.popped| >= |w.popped| + |rounds|)
    decreases |rounds|
  {
    hide Live, LinkWork, QuietRun, Run, SenderTicksIn, ReceiverTicksIn, Acknowledges, RdEmpty;
    ArrivedMeans(cfg, w);
    if rounds != [] {
      var w' := Run(cfg, w, rounds[0]);
      StaysArrived(cfg, w, rounds[0]);
      WordsOfRun(cfg, w, rounds[0]);
      if !RdEmpty(w.fifo) {
        RoundDelivers(cfg, w, rounds[0]);
      }
      RoundsDeliver(cfg, w', rounds[1..]);
      LiveWords(cfg, w');
      LiveWords(cfg, RunRounds(cfg, w, rounds));
    }
  }

  lemma LiveWords<T>(cfg: Config, w: World<T>)
    requires cfg.Valid()
    requires Arrived(cfg, w)
    ensures w.popped <= w.pushed && |w.pushed| - |w.popped| <= cfg.depth
  {
    hide Inv;
    InvMeans(cfg, w);
  }

  /** Nothing stays inside: if nothing more is written, then after the words have arrived the reader needs to
      acknowledge in DEPTH more rounds of both clocks, and has got everything that was accepted. */
  lemma EverythingIsDelivered<T>(cfg: Config, w: World<T>, rounds: seq<seq<Event<T>>>, reading: seq<seq<Event<T>>>)
    requires cfg.Valid()
    requires Live(cfg, w) && QuietRounds(ToReader, cfg, w, rounds) && |rounds| >= 25 * cfg.depth + 84
    requires QuietRounds(ToReader, cfg, RunRounds(cfg, w, rounds), reading) && |reading| >= cfg.depth
    requires forall i | 0 <= i < |reading| :: Acknowledges(reading[i])
    ensures var v := RunRounds(cfg, RunRounds(cfg, w, rounds), reading);
            v.popped == v.pushed == RunRounds(cfg, w, rounds).pushed
  {
    hide Live, LinkWork, QuietRounds, RunRounds, Acknowledges;
    Arrive(cfg, w, rounds);
    var u := RunRounds(cfg, w, rounds);
    RoundsDeliver(cfg, u, reading);
    LiveWords(cfg, u);
    LiveWords(cfg, RunRounds(cfg, u, reading));
  }

  // Rounds of one edge of both clocks each, without a write.
  function IdleRounds<T>(n: nat, word: T, rdAck: bool, luck: Luck<T>): seq<seq<Event<T>>> {
    seq(n, _ => [Edge(Both, false, word, rdAck, luck)])
  }

  lemma QuietRound<T>(cfg: Config, w: World<T>, e: Event<T>)
    requires cfg.Valid() && e.Edge? && e.clocks.Both? && !e.wrReq
    ensures IsRound(ToReader, [e]) && QuietRun(ToReader, cfg, w, [e])
    ensures !e.rdAck ==> IsRound(ToWriter, [e]) && QuietRun(ToWriter, cfg, w, [e])
  {
    hide Next;
    assert [e][0] == e && [e][1..] == [];
    assert SenderTicks(ToReader, [e][0]) && ReceiverTicks(ToReader, [e][0]);
    assert SenderTicks(ToWriter, [e][0]) && ReceiverTicks(ToWriter, [e][0]);
  }

  /** Rounds as the theorems ask for do exist, as many as one likes, from every state: nothing is written, and the
      reader acknowledges always or never. */
  lemma {:induction false} RoundsExist<T>(cfg: Config, w: World<T>, n: nat, word: T, rdAck: bool, luck: Luck<T>)
    requires cfg.Valid()
    ensures var rounds := IdleRounds(n, word, rdAck, luck);
            && |rounds| == n && QuietRounds(ToReader, cfg, w, rounds)
            && (!rdAck ==> QuietRounds(ToWriter, cfg, w, rounds))
            && (rdAck ==> forall i | 0 <= i < n :: Acknowledges(rounds[i]))
    decreases n
  {
    hide Next;
    if n > 0 {
      var rounds := IdleRounds(n, word, rdAck, luck);
      var e: Event<T> := Edge(Both, false, word, rdAck, luck);
      assert rounds[1..] == IdleRounds(n - 1, word, rdAck, luck) && rounds[0] == [e] && [e][1..] == [];
      QuietRound(cfg, w, e);
      hide IsRound, QuietRun, Run;
      RoundsExist(cfg, Run(cfg, w, [e]), n - 1, word, rdAck, luck);
    }
  }
}
