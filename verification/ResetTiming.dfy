/** The reset synchroniser over whole runs: in which order the two sides leave reset, on which edges,
    after how long a hold, and that they do leave it. */
module ResetTiming {
  import opened ResetSync

  datatype Happening = AssertNow | ReleaseNow | Tick(wr: bool, rd: bool, wrMaySee: bool, rdMaySee: bool)

  // The chain, and how many edges of each clock in a row have found its synchronous reset low.
  datatype Watch = Watch(chain: Chain, wrLow: nat, rdLow: nat)

  function Observe(w: Watch, h: Happening): Watch {
    match h
    case AssertNow => w.(chain := Assert(w.chain))
    case ReleaseNow => w.(chain := Release(w.chain))
    case Tick(wr, rd, wrMaySee, rdMaySee) =>
      Watch(Edge(w.chain, wr, rd, wrMaySee, rdMaySee),
            if !wr then w.wrLow else if w.chain.WrSclrn() then 0 else w.wrLow + 1,
            if !rd then w.rdLow else if w.chain.RdSclrn() then 0 else w.rdLow + 1)
  }

  function ObserveAll(w: Watch, hs: seq<Happening>): Watch
    decreases |hs|
  {
    if hs == [] then w else ObserveAll(Observe(w, hs[0]), hs[1..])
  }

  // The further the release has come, the longer the synchronous reset has been held.
  predicate WatchInv(w: Watch) {
    var c := w.chain;
    && ChainInv(c)
    && (c.rdBody1 && !c.rdAsyncPipe1 ==> w.rdLow >= 1)
    && (c.rdAsyncPipe0 && !c.rdAsyncPipe1 ==> w.rdLow >= 2)
    && (c.wrAgainBody1 && !c.wrAsyncPipe1 ==> w.wrLow >= 1)
    && (c.wrAsyncPipe0 && !c.wrAsyncPipe1 ==> w.wrLow >= 2)
  }

  lemma WatchStep(w: Watch, h: Happening)
    requires WatchInv(w)
    ensures WatchInv(Observe(w, h))
  {
    if h.Tick? {
      ChainStep(w.chain, h.wr, h.rd, h.wrMaySee, h.rdMaySee);
    }
  }

  lemma {:induction false} WatchRun(w: Watch, hs: seq<Happening>)
    requires WatchInv(w)
    ensures WatchInv(ObserveAll(w, hs))
    decreases |hs|
  {
    hide WatchInv, Observe;
    if hs != [] {
      WatchStep(w, hs[0]);
      WatchRun(Observe(w, hs[0]), hs[1..]);
    }
  }

  // What one more edge may do, from a state of the release.
  lemma ReleaseEdges(w: Watch, h: Happening)
    requires WatchInv(w)
    requires h.Tick?
    ensures var c, d := w.chain, Observe(w, h);
            var c' := d.chain;
            && (c'.WrAclrn() ==> c'.RdAclrn() && c'.WrSclrn() && c'.RdSclrn() && c'.asyncResetn)
            && (!c.RdAclrn() && c'.RdAclrn() ==> !c.RdSclrn() && c'.RdSclrn() && d.rdLow >= 3)
            && (!c.WrAclrn() && c'.WrAclrn() ==>
                  !c.WrSclrn() && c'.WrSclrn() && d.wrLow >= 3 && c.RdAclrn() && c.RdSclrn())
  {
  }

  /** The reset protocol: on every run from any contents of the chain, once the asynchronous reset was
      asserted, for however short a pulse: the write side never runs without the read side; each side's
      asynchronously cleared and synchronous resets are released by the same edge; and by then at least
      three edges of its clock in a row have found the synchronous reset low. */
  lemma ReleaseProtocol(start: Watch, hs: seq<Happening>, h: Happening)
    requires h.Tick?
    ensures var w := ObserveAll(Observe(start, AssertNow), hs);
            var c, d := w.chain, Observe(w, h);
            var c' := d.chain;
            && (c'.WrAclrn() ==> c'.RdAclrn() && c'.WrSclrn() && c'.RdSclrn() && c'.asyncResetn)
            && (!c.RdAclrn() && c'.RdAclrn() ==> !c.RdSclrn() && c'.RdSclrn() && d.rdLow >= 3)
            && (!c.WrAclrn() && c'.WrAclrn() ==>
                  !c.WrSclrn() && c'.WrSclrn() && d.wrLow >= 3 && c.RdAclrn() && c.RdSclrn())
  {
    AssertEstablishes(start.chain);
    hide ChainInv, Edge;
    WatchRun(Observe(start, AssertNow), hs);
    ReleaseEdges(ObserveAll(Observe(start, AssertNow), hs), h);
  }

  // The two clocks, to speak of either.
  datatype Clock = WrClock | RdClock

  predicate Ticks(h: Happening, clock: Clock) {
    h.Tick? && (if clock.WrClock? then h.wr else h.rd)
  }

  // The asynchronous reset was asserted after the last edge of a clock.
  predicate AssertedSinceEdge(hs: seq<Happening>, clock: Clock) {
    exists i :: 0 <= i < |hs| && hs[i].AssertNow? && forall j | i < j < |hs| :: !Ticks(hs[j], clock)
  }

  // The same, happening after happening.
  function Asserted(before: bool, hs: seq<Happening>, clock: Clock): bool
    decreases |hs|
  {
    if hs == [] then before
    else Asserted(hs[0].AssertNow? || (before && !Ticks(hs[0], clock)), hs[1..], clock)
  }

  predicate NoTick(hs: seq<Happening>, clock: Clock) {
    forall j | 0 <= j < |hs| :: !Ticks(hs[j], clock)
  }

  lemma {:induction false} AssertedMeans(before: bool, hs: seq<Happening>, clock: Clock)
    ensures Asserted(before, hs, clock) <==> AssertedSinceEdge(hs, clock) || (before && NoTick(hs, clock))
    decreases |hs|
  {
    if hs != [] {
      var rest := hs[1..];
      AssertedMeans(hs[0].AssertNow? || (before && !Ticks(hs[0], clock)), rest, clock);
      assert NoTick(hs, clock) <==> !Ticks(hs[0], clock) && NoTick(rest, clock) by {
        assert forall j | 0 < j < |hs| :: hs[j] == rest[j - 1];
      }
      if AssertedSinceEdge(hs, clock) {
        var i :| 0 <= i < |hs| && hs[i].AssertNow? && forall j | i < j < |hs| :: !Ticks(hs[j], clock);
        if i > 0 {
          assert rest[i - 1].AssertNow?;
        }
        assert forall j | i - 1 < j < |rest| :: rest[j] == hs[j + 1];
      }
      if AssertedSinceEdge(rest, clock) {
        var i :| 0 <= i < |rest| && rest[i].AssertNow? && forall j | i < j < |rest| :: !Ticks(rest[j], clock);
        assert hs[i + 1].AssertNow?;
        assert forall j | i + 1 < j < |hs| :: hs[j] == rest[j - 1];
      }
      if hs[0].AssertNow? && NoTick(rest, clock) {
        assert forall j | 0 < j < |hs| :: hs[j] == rest[j - 1];
      }
    }
  }

  // Since the last edge of its clock only an assertion makes the two pipelines of a clock differ.
  predicate PipesAgree(c: ResetSync.Chain, asserted: bool, clock: Clock) {
    match clock
    case WrClock => if asserted then !c.wrAsyncPipe0 else c.wrSyncPipe0 == c.wrAsyncPipe0
    case RdClock => if asserted then !c.rdAsyncPipe0 else c.rdSyncPipe0 == c.rdAsyncPipe0
  }

  lemma PipesStep(w: Watch, h: Happening, asserted: bool, clock: Clock)
    requires WatchInv(w) && PipesAgree(w.chain, asserted, clock)
    ensures PipesAgree(Observe(w, h).chain, h.AssertNow? || (asserted && !Ticks(h, clock)), clock)
  {
  }

  lemma {:induction false} PipesRun(w: Watch, hs: seq<Happening>, asserted: bool, clock: Clock)
    requires WatchInv(w) && PipesAgree(w.chain, asserted, clock)
    ensures PipesAgree(ObserveAll(w, hs).chain, Asserted(asserted, hs, clock), clock)
    decreases |hs|
  {
    hide WatchInv, Observe, PipesAgree, Ticks;
    if hs != [] {
      PipesStep(w, hs[0], asserted, clock);
      WatchStep(w, hs[0]);
      PipesRun(Observe(w, hs[0]), hs[1..], hs[0].AssertNow? || (asserted && !Ticks(hs[0], clock)), clock);
    }
  }

  predicate Aclrn(c: ResetSync.Chain, clock: Clock) { if clock.WrClock? then c.WrAclrn() else c.RdAclrn() }

  predicate Sclrn(c: ResetSync.Chain, clock: Clock) { if clock.WrClock? then c.WrSclrn() else c.RdSclrn() }

  /** The converse fails when a new assertion catches a release between its last two stages. On every run: a
      synchronous reset that goes high does so alone, without the asynchronously cleared one, if and only if the
      asynchronous reset was asserted since the last edge of its clock. */
  lemma SynchronousReleaseAlone(start: Watch, hs: seq<Happening>, h: Happening, clock: Clock)
    requires h.Tick?
    requires var c := ObserveAll(start, [AssertNow] + hs).chain;
             !Sclrn(c, clock) && Sclrn(Edge(c, h.wr, h.rd, h.wrMaySee, h.rdMaySee), clock)
    ensures var c := ObserveAll(start, [AssertNow] + hs).chain;
            var c' := Edge(c, h.wr, h.rd, h.wrMaySee, h.rdMaySee);
            && (!Aclrn(c', clock) <==> AssertedSinceEdge([AssertNow] + hs, clock))
            && (Aclrn(c', clock) ==> !Aclrn(c, clock))
  {
    var all := [AssertNow] + hs;
    var w0 := Observe(start, AssertNow);
    assert all[1..] == hs;
    assert ObserveAll(start, all) == ObserveAll(w0, hs);
    AssertEstablishes(start.chain);
    assert PipesAgree(w0.chain, true, clock);
    WatchRun(w0, hs);
    PipesRun(w0, hs, true, clock);
    AssertedMeans(true, hs, clock);
    AssertedMeans(false, all, clock);
    assert Asserted(false, all, clock) == Asserted(true, hs, clock);
    hide ObserveAll, AssertedSinceEdge, NoTick, Asserted, Observe;
    AloneStep(ObserveAll(w0, hs), h, Asserted(true, hs, clock), clock);
  }

  lemma AloneStep(w: Watch, h: Happening, asserted: bool, clock: Clock)
    requires WatchInv(w) && PipesAgree(w.chain, asserted, clock) && h.Tick?
    requires !Sclrn(w.chain, clock) && Sclrn(Edge(w.chain, h.wr, h.rd, h.wrMaySee, h.rdMaySee), clock)
    ensures var c' := Edge(w.chain, h.wr, h.rd, h.wrMaySee, h.rdMaySee);
            && (!Aclrn(c', clock) <==> asserted)
            && (Aclrn(c', clock) ==> !Aclrn(w.chain, clock))
  {
  }

  // A chain in the middle of a release, as AloneHappens reaches it, and an edge of rd_clock after a new assertion.
  lemma AloneHappens()
    ensures var none := Watch(Chain(false, false, false, false, false, false, false, false, false, false, false,
                                    false, false, false, false, false, false, false), 0, 0);
            var hs := [ReleaseNow,
                       Tick(true, false, false, false), Tick(true, false, false, false),
                       Tick(true, false, false, false), Tick(false, true, false, false),
                       Tick(false, true, false, false), Tick(false, true, false, false),
                       Tick(false, true, false, false), AssertNow];
            var c := ObserveAll(Observe(none, AssertNow), hs).chain;
            var c' := Edge(c, false, true, false, false);
            !c.RdSclrn() && c'.RdSclrn() && !c'.RdAclrn()
  {
  }

  // Stages that are still low.
  function Low(b: bool): nat { if b then 0 else 1 }

  function WrLow(c: Chain): nat {
    Low(c.wrHead) + Low(c.wrBody0) + Low(c.wrBody1) + Low(c.wrAgainHead) + Low(c.wrAgainBody0) + Low(c.wrAgainBody1)
    + Low(c.wrAsyncPipe0) + Low(c.wrAsyncPipe1)
  }

  function RdLow(c: Chain): nat {
    Low(c.rdHead) + Low(c.rdBody0) + Low(c.rdBody1) + Low(c.rdAsyncPipe0) + Low(c.rdAsyncPipe1)
  }

  // It is the write clock's turn to fill its first stages, or, once the read side runs, the rest.
  predicate WrTurn(c: Chain) { !c.wrBody1 || c.rdAsyncPipe1 }

  lemma WrFillDown(c: Chain, h: Happening)
    requires ChainInv(c) && c.asyncResetn && h.Tick?
    ensures WrLow(Edge(c, h.wr, h.rd, h.wrMaySee, h.rdMaySee)) <= WrLow(c)
  {
    var c' := Edge(c, h.wr, h.rd, h.wrMaySee, h.rdMaySee);
    assert (c.wrHead ==> c'.wrHead) && (c.wrBody0 ==> c'.wrBody0) && (c.wrBody1 ==> c'.wrBody1);
    assert (c.wrAgainHead ==> c'.wrAgainHead) && (c.wrAgainBody0 ==> c'.wrAgainBody0)
        && (c.wrAgainBody1 ==> c'.wrAgainBody1);
    assert (c.wrAsyncPipe0 ==> c'.wrAsyncPipe0) && (c.wrAsyncPipe1 ==> c'.wrAsyncPipe1);
    hide Edge, ChainInv;
  }

  lemma FillDown(c: Chain, h: Happening)
    requires ChainInv(c) && c.asyncResetn && h.Tick?
    ensures var c' := Edge(c, h.wr, h.rd, h.wrMaySee, h.rdMaySee);
            && c'.asyncResetn
            && WrLow(c') <= WrLow(c) && RdLow(c') <= RdLow(c)
  {
    WrFillDown(c, h);
    hide WrLow;
  }

  // The last stage goes high last.
  lemma FullMeans(c: Chain)
    requires ChainInv(c) && c.asyncResetn
    ensures AllLow(c) <= 13
    ensures AllLow(c) == 0 <==> c.WrAclrn()
  {
  }

  lemma FillTurn(c: Chain, h: Happening)
    requires ChainInv(c) && c.asyncResetn && h.Tick? && !c.WrAclrn()
    ensures var c' := Edge(c, h.wr, h.rd, h.wrMaySee, h.rdMaySee);
            && (h.wr && WrTurn(c) ==> WrLow(c') < WrLow(c))
            && (h.rd && !WrTurn(c) ==> RdLow(c') < RdLow(c))
  {
  }

  lemma FillStay(c: Chain, h: Happening)
    requires ChainInv(c) && c.asyncResetn && h.Tick?
    ensures var c' := Edge(c, h.wr, h.rd, h.wrMaySee, h.rdMaySee);
            WrLow(c') == WrLow(c) && RdLow(c') == RdLow(c) ==> WrTurn(c') == WrTurn(c)
  {
  }

  predicate NoAssert(hs: seq<Happening>) { forall i | 0 <= i < |hs| :: hs[i].Tick? }

  // Both clocks tick in it.
  predicate IsRound(hs: seq<Happening>) {
    && NoAssert(hs)
    && (exists i :: 0 <= i < |hs| && hs[i].wr)
    && (exists i :: 0 <= i < |hs| && hs[i].rd)
  }

  function AllLow(c: Chain): nat { WrLow(c) + RdLow(c) }

  lemma {:induction false} RunFills(w: Watch, hs: seq<Happening>)
    requires WatchInv(w) && w.chain.asyncResetn && NoAssert(hs)
    ensures var v := ObserveAll(w, hs);
            WatchInv(v) && v.chain.asyncResetn && AllLow(v.chain) <= AllLow(w.chain)
    decreases |hs|
  {
    if hs != [] {
      WatchStep(w, hs[0]);
      FillDown(w.chain, hs[0]);
      hide ChainInv, Edge, WrLow, RdLow;
      RunFills(Observe(w, hs[0]), hs[1..]);
    }
  }

  // Whichever clock's turn it is, its first edge fills a stage.
  lemma {:induction false} TurnFills(w: Watch, hs: seq<Happening>)
    requires WatchInv(w) && w.chain.asyncResetn && !w.chain.WrAclrn() && NoAssert(hs)
    requires exists i :: 0 <= i < |hs| && (if WrTurn(w.chain) then hs[i].wr else hs[i].rd)
    ensures AllLow(ObserveAll(w, hs).chain) < AllLow(w.chain)
    decreases |hs|
  {
    var w' := Observe(w, hs[0]);
    WatchStep(w, hs[0]);
    FillDown(w.chain, hs[0]);
    FillTurn(w.chain, hs[0]);
    FillStay(w.chain, hs[0]);
    FullMeans(w.chain);
    FullMeans(w'.chain);
    hide ChainInv, Edge, WrLow, RdLow, WrTurn;
    if AllLow(w'.chain) < AllLow(w.chain) {
      RunFills(w', hs[1..]);
    } else {
      var i :| 0 <= i < |hs| && (if WrTurn(w.chain) then hs[i].wr else hs[i].rd);
      assert hs[1..][i - 1] == hs[i];
      TurnFills(w', hs[1..]);
    }
  }

  function ObserveRounds(w: Watch, rounds: seq<seq<Happening>>): Watch
    decreases |rounds|
  {
    if rounds == [] then w else ObserveRounds(ObserveAll(w, rounds[0]), rounds[1..])
  }

  /** Both sides do leave reset: once the asynchronous reset is released and stays so, after at most
      thirteen rounds in which both clocks tick, and they stay out. */
  lemma {:induction false} ResetEnds(w: Watch, rounds: seq<seq<Happening>>)
    requires WatchInv(w) && w.chain.asyncResetn
    requires forall i | 0 <= i < |rounds| :: IsRound(rounds[i])
    ensures AllLow(w.chain) <= 13
    ensures var v := ObserveRounds(w, rounds);
            |rounds| >= AllLow(w.chain) ==> v.chain.WrAclrn() && v.chain.RdAclrn()
    decreases |rounds|
  {
    FullMeans(w.chain);
    if rounds != [] {
      var w' := ObserveAll(w, rounds[0]);
      RunFills(w, rounds[0]);
      if !w.chain.WrAclrn() {
        TurnFills(w, rounds[0]);
      }
      hide ChainInv, Edge, WrLow, RdLow, WrTurn, ObserveAll;
      ResetEnds(w', rounds[1..]);
    }
  }
}
