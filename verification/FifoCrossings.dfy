/** Every outcome of a race does occur: which values an edge of both clocks may leave behind a crossing, exactly. So
    what is proved of all runs of the dual-clock FIFO is proved of every way its crossings may fall. */
module FifoCrossings {
  import opened ToggleLane
  import opened Port
  import opened Parameters
  import opened TokenRing
  import opened Fifo
  import ResetSync

  // The first flops behind the crossings of one direction.

  function Sync1(rx: Trio<Rx>): Trio<bool> {
    Trio(rx.one.sync1, rx.two.sync1, rx.four.sync1)
  }

  function Back1(tx: Trio<Tx>): Trio<bool> {
    Trio(tx.one.back1, tx.two.back1, tx.four.back1)
  }

  // What a side has captured of the other.
  predicate Captured(p: Port, seen: Crossing) {
    Sync1(p.rx) == seen.sample && Back1(p.tx) == seen.back
  }

  function Differ(a: Trio<bool>, b: Trio<bool>): Trio<bool> {
    Trio(a.one != b.one, a.two != b.two, a.four != b.four)
  }

  lemma MixExactly(takeNew: Trio<bool>, want: Trio<bool>, before: Trio<bool>, after: Trio<bool>)
    ensures Sampled3(Mix(takeNew, before, after), before, after)
    ensures Sampled3(want, before, after) ==> Mix(Differ(want, before), before, after) == want
  {
  }

  // What an edge leaves in the registers of a port that another clock looks at, and in those that look at it.
  lemma PortCaptures(cfg: Config, p: Port, sclrn: bool, clearPrev: bool, event: bool, seen: Crossing)
    requires cfg.Valid()
    ensures var p' := PortClock(cfg, p, true, sclrn, clearPrev, event, seen);
            && Captured(p', seen)
            && Toggles(p'.tx) == NextToggles(p, true, true) && Seen(p'.rx) == NextSeen(p, true, true)
  {
    hide LeftEdge, ToSend;
  }

  // The ports of both sides after an edge of both clocks.
  lemma BothPorts<T>(cfg: Config, f: Fifo<T>, wrReq: bool, wrData: T, rdAck: bool, luck: Luck<T>)
    requires cfg.Valid() && f.reset.WrAclrn() && f.reset.RdAclrn()
    ensures var g, wr, rd := Clock(cfg, f, Edge(Both, wrReq, wrData, rdAck, luck)), f.wr.port, f.rd.port;
            && Captured(g.wr.port, SeenBy(luck.wrSample, luck.wrBack, rd, true, true))
            && Captured(g.rd.port, SeenBy(luck.rdSample, luck.rdBack, wr, true, true))
            && Toggles(g.wr.port.tx) == NextToggles(wr, true, true) && Seen(g.wr.port.rx) == NextSeen(wr, true, true)
            && Toggles(g.rd.port.tx) == NextToggles(rd, true, true) && Seen(g.rd.port.rx) == NextSeen(rd, true, true)
  {
    hide PortClock, Update, AddrClock, ResetSync.Edge, RamOut, Feed, PrefetchEnable, SeenBy, NextToggles, NextSeen,
         Captured, Seen, Toggles;
    PortCaptures(cfg, f.wr.port, f.reset.WrSclrn(), false, WriteIntoFifo(cfg, f, wrReq),
                 SeenBy(luck.wrSample, luck.wrBack, f.rd.port, true, true));
    PortCaptures(cfg, f.rd.port, f.reset.RdSclrn(), true, ReadFromFifo(f.rd, rdAck),
                 SeenBy(luck.rdSample, luck.rdBack, f.wr.port, true, true));
  }

  // A choice that brings about given captures.
  function Choose<T>(f: Fifo<T>, any: Luck<T>, wrSeen: Crossing, rdSeen: Crossing): Luck<T> {
    any.(wrSample := Differ(wrSeen.sample, Toggles(f.rd.port.tx)), wrBack := Differ(wrSeen.back, Seen(f.rd.port.rx)),
         rdSample := Differ(rdSeen.sample, Toggles(f.wr.port.tx)), rdBack := Differ(rdSeen.back, Seen(f.wr.port.rx)))
  }

  lemma SeenByExactly(takeNewSample: Trio<bool>, takeNewBack: Trio<bool>, other: Port, want: Crossing)
    ensures var before, after := Crossing(Toggles(other.tx), Seen(other.rx)),
                                 Crossing(NextToggles(other, true, true), NextSeen(other, true, true));
            && Between(SeenBy(takeNewSample, takeNewBack, other, true, true), before, after)
            && (Between(want, before, after) ==>
                  SeenBy(Differ(want.sample, before.sample), Differ(want.back, before.back), other, true, true) == want)
  {
    hide Mix, NextToggles, NextSeen, Sampled3;
    MixExactly(takeNewSample, want.sample, Toggles(other.tx), NextToggles(other, true, true));
    MixExactly(takeNewBack, want.back, Seen(other.rx), NextSeen(other, true, true));
  }

  // Each bit is as before or as after.
  predicate Between(seen: Crossing, before: Crossing, after: Crossing) {
    Sampled3(seen.sample, before.sample, after.sample) && Sampled3(seen.back, before.back, after.back)
  }

  /** With edges of both clocks at once out of reset, each of the twelve bits that cross is captured as it was before
      the edge or as it is after it, and every one of these outcomes is possible. */
  lemma CrossingsExactly<T>(cfg: Config, f: Fifo<T>, wrReq: bool, wrData: T, rdAck: bool, any: Luck<T>,
                            wrSeen: Crossing, rdSeen: Crossing)
    requires cfg.Valid() && f.reset.WrAclrn() && f.reset.RdAclrn()
    ensures var g := Clock(cfg, f, Edge(Both, wrReq, wrData, rdAck, any));
            (exists luck :: var g' := Clock(cfg, f, Edge(Both, wrReq, wrData, rdAck, luck));
                            Captured(g'.wr.port, wrSeen) && Captured(g'.rd.port, rdSeen))
            <==> Crosses(wrSeen, f.rd.port, g.rd.port) && Crosses(rdSeen, f.wr.port, g.wr.port)
  {
    hide Clock, SeenBy, NextToggles, NextSeen, Sampled3, Toggles, Seen, Differ;
    var g := Clock(cfg, f, Edge(Both, wrReq, wrData, rdAck, any));
    BothPorts(cfg, f, wrReq, wrData, rdAck, any);
    if Crosses(wrSeen, f.rd.port, g.rd.port) && Crosses(rdSeen, f.wr.port, g.wr.port) {
      var luck := Choose(f, any, wrSeen, rdSeen);
      BothPorts(cfg, f, wrReq, wrData, rdAck, luck);
      SeenByExactly(luck.wrSample, luck.wrBack, f.rd.port, wrSeen);
      SeenByExactly(luck.rdSample, luck.rdBack, f.wr.port, rdSeen);
      var g' := Clock(cfg, f, Edge(Both, wrReq, wrData, rdAck, luck));
      assert Captured(g'.wr.port, wrSeen) && Captured(g'.rd.port, rdSeen);
    }
    forall luck | Captured(Clock(cfg, f, Edge(Both, wrReq, wrData, rdAck, luck)).wr.port, wrSeen)
                  && Captured(Clock(cfg, f, Edge(Both, wrReq, wrData, rdAck, luck)).rd.port, rdSeen)
      ensures Crosses(wrSeen, f.rd.port, g.rd.port) && Crosses(rdSeen, f.wr.port, g.wr.port)
    {
      BothPorts(cfg, f, wrReq, wrData, rdAck, luck);
      SeenByExactly(luck.wrSample, luck.wrBack, f.rd.port, wrSeen);
      SeenByExactly(luck.rdSample, luck.rdBack, f.wr.port, rdSeen);
    }
  }

  lemma SeenAtRest(takeNewSample: Trio<bool>, takeNewBack: Trio<bool>, other: Port, aclrn: bool)
    ensures SeenBy(takeNewSample, takeNewBack, other, false, aclrn) == Crossing(Toggles(other.tx), Seen(other.rx))
  {
  }

  /** An edge of one clock alone captures the other side as it is. */
  lemma AloneAsItIs<T>(cfg: Config, f: Fifo<T>, e: Event<T>)
    requires cfg.Valid() && f.reset.WrAclrn() && f.reset.RdAclrn() && e.Edge?
    ensures var g := Clock(cfg, f, e);
            && (e.clocks.WrOnly? ==> Captured(g.wr.port, Crossing(Toggles(f.rd.port.tx), Seen(f.rd.port.rx))))
            && (e.clocks.RdOnly? ==> Captured(g.rd.port, Crossing(Toggles(f.wr.port.tx), Seen(f.wr.port.rx))))
  {
    SeenAtRest(e.luck.wrSample, e.luck.wrBack, f.rd.port, true);
    SeenAtRest(e.luck.rdSample, e.luck.rdBack, f.wr.port, true);
    hide PortClock, Update, AddrClock, ResetSync.Edge, RamOut, Feed, PrefetchEnable, Captured, Seen, Toggles,
         SeenBy, NextToggles, NextSeen;
    PortCaptures(cfg, f.wr.port, f.reset.WrSclrn(), false, WriteIntoFifo(cfg, f, e.wrReq),
                 SeenBy(e.luck.wrSample, e.luck.wrBack, f.rd.port, false, true));
    PortCaptures(cfg, f.rd.port, f.reset.RdSclrn(), true, ReadFromFifo(f.rd, e.rdAck),
                 SeenBy(e.luck.rdSample, e.luck.rdBack, f.wr.port, false, true));
  }

  /** The same for the two places where one clock's reset is released to the other: at an edge of both clocks that
      releases it, the first flop behind may be free already or not, and nothing else is possible. */
  lemma ResetCrossingsExactly<T>(cfg: Config, f: Fifo<T>, wrReq: bool, wrData: T, rdAck: bool, any: Luck<T>,
                                 wrHead: bool, rdHead: bool)
    requires cfg.Valid() && ResetSync.ChainInv(f.reset)
    ensures var c, c' := f.reset, Clock(cfg, f, Edge(Both, wrReq, wrData, rdAck, any)).reset;
            (exists luck :: var r := Clock(cfg, f, Edge(Both, wrReq, wrData, rdAck, luck)).reset;
                            r.wrAgainHead == wrHead && r.rdHead == rdHead)
            <==> Sampled(wrHead, c.RdAclrn(), c'.RdAclrn()) && Sampled(rdHead, c.wrBody1, c'.wrBody1)
  {
    hide WriteClock, ReadClock, RamOut, SeenBy, WriteIntoFifo;
    var luck := any.(wrReset := wrHead, rdReset := rdHead);
    var r := Clock(cfg, f, Edge(Both, wrReq, wrData, rdAck, luck)).reset;
    if Sampled(wrHead, f.reset.RdAclrn(), r.RdAclrn()) && Sampled(rdHead, f.reset.wrBody1, r.wrBody1) {
      assert r.wrAgainHead == wrHead && r.rdHead == rdHead;
    }
  }

  /** A read of a slot that was never written, or is being written by the same edge, may put out anything; and a read
      of any other slot puts out what is there. */
  lemma RamOutExactly<T>(cfg: Config, f: Fifo<T>, writing: bool, word: T)
    ensures var a := ReadAddr(cfg, f.rd);
            (exists noise :: RamOut(cfg, f, writing, noise) == word) <==>
            (if a !in f.ram || (writing && a == WriteAddr(cfg, f)) then true else f.ram[a] == word)
  {
    hide ReadAddr, WriteAddr;
    var a := ReadAddr(cfg, f.rd);
    if a !in f.ram || (writing && a == WriteAddr(cfg, f)) || f.ram[a] == word {
      assert RamOut(cfg, f, writing, word) == word;
    }
  }
}
