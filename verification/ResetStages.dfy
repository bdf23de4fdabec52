/** How long the reset takes, to the edge: three edges of wr_clock, five of rd_clock and five of wr_clock again. */
module ResetStages {
  import opened ResetSync
  import opened ResetTiming

  // How far the release has come: the number of stages that are high, in the order in which they fill.
  datatype Release = Release(released: bool, stage: nat)

  const WR_RESETN: nat := 3    // wr_resetn, the end of the first synchroniser
  const RD_ACLRN: nat := 8     // five stages on rd_clock
  const WR_ACLRN: nat := 13    // five more on wr_clock

  // An edge of the clock whose turn it is fills one stage. When it fills the last stage of its turn at the same moment
  // as an edge of the other clock, that edge may already see it and fill the first stage of the next turn.
  function Count(r: Release, h: Happening): Release {
    match h
    case AssertNow => Release(false, 0)
    case ReleaseNow => r.(released := true)
    case Tick(wr, rd, wrMaySee, rdMaySee) =>
      if !r.released || r.stage >= WR_ACLRN then r
      else
        var wrTurn := r.stage < WR_RESETN || r.stage >= RD_ACLRN;
        if !(if wrTurn then wr else rd) then r
        else
          var next := r.stage + 1;
          var seen := (next == WR_RESETN && rd && rdMaySee) || (next == RD_ACLRN && wr && wrMaySee);
          r.(stage := if seen then next + 1 else next)
  }

  function CountAll(r: Release, hs: seq<Happening>): Release
    decreases |hs|
  {
    if hs == [] then r else CountAll(Count(r, hs[0]), hs[1..])
  }

  // The chain has exactly its first stages high.
  predicate Filled(c: Chain, r: Release) {
    && c.asyncResetn == r.released
    && c.wrHead == (r.stage >= 1) && c.wrBody0 == (r.stage >= 2) && c.wrBody1 == (r.stage >= 3)
    && c.rdHead == (r.stage >= 4) && c.rdBody0 == (r.stage >= 5) && c.rdBody1 == (r.stage >= 6)
    && c.rdAsyncPipe0 == (r.stage >= 7) && c.rdAsyncPipe1 == (r.stage >= 8)
    && c.wrAgainHead == (r.stage >= 9) && c.wrAgainBody0 == (r.stage >= 10) && c.wrAgainBody1 == (r.stage >= 11)
    && c.wrAsyncPipe0 == (r.stage >= 12) && c.wrAsyncPipe1 == (r.stage >= 13)
  }

  lemma FilledStep(w: Watch, h: Happening, r: Release)
    requires Filled(w.chain, r) && (!r.released ==> r.stage == 0)
    ensures Filled(Observe(w, h).chain, Count(r, h))
    ensures !Count(r, h).released ==> Count(r, h).stage == 0
  {
  }

  lemma {:induction false} FilledRun(w: Watch, hs: seq<Happening>, r: Release)
    requires Filled(w.chain, r) && (!r.released ==> r.stage == 0)
    ensures Filled(ObserveAll(w, hs).chain, CountAll(r, hs))
    decreases |hs|
  {
    hide Filled, Observe, Count;
    if hs != [] {
      FilledStep(w, hs[0], r);
      FilledRun(Observe(w, hs[0]), hs[1..], Count(r, hs[0]));
    }
  }

  /** On every run after an assertion the two sides are out of reset exactly from the edges on that the count gives. */
  lemma ReleasedExactlyWhen(start: Watch, hs: seq<Happening>)
    ensures var c, n := ObserveAll(Observe(start, AssertNow), hs).chain, CountAll(Release(false, 0), hs).stage;
            (c.RdAclrn() <==> n >= RD_ACLRN) && (c.WrAclrn() <==> n >= WR_ACLRN)
  {
    hide Observe, ObserveAll, Count;
    AssertFills(start);
    FilledRun(Observe(start, AssertNow), hs, Release(false, 0));
  }

  lemma AssertFills(w: Watch)
    ensures Filled(Observe(w, AssertNow).chain, Release(false, 0))
  {
  }

  // Edges of one clock alone.
  function Only(clock: ResetTiming.Clock, n: nat): seq<Happening> {
    seq(n, _ => Tick(clock.WrClock?, clock.RdClock?, false, false))
  }

  lemma {:induction false} CountOnly(r: Release, clock: ResetTiming.Clock, n: nat)
    requires r.released
    requires clock.WrClock? ==> r.stage + n <= WR_RESETN || (r.stage >= RD_ACLRN && r.stage + n <= WR_ACLRN)
    requires clock.RdClock? ==> WR_RESETN <= r.stage && r.stage + n <= RD_ACLRN
    ensures CountAll(r, Only(clock, n)) == r.(stage := r.stage + n)
    decreases n
  {
    if n > 0 {
      assert Only(clock, n)[1..] == Only(clock, n - 1);
      CountOnly(Count(r, Only(clock, n)[0]), clock, n - 1);
    }
  }

  lemma {:induction false} CountJoins(r: Release, a: seq<Happening>, b: seq<Happening>)
    ensures CountAll(r, a + b) == CountAll(CountAll(r, a), b)
    decreases |a|
  {
    hide Count;
    if a == [] {
      assert a + b == b;
    } else {
      assert (a + b)[0] == a[0] && (a + b)[1..] == a[1..] + b;
      CountJoins(Count(r, a[0]), a[1..], b);
    }
  }

  /** With the clocks running one after the other it is 3, 5 and 5 edges, and one edge less in any place is not
      enough. */
  lemma ThreeFiveFive(start: Watch, a: nat, b: nat, c: nat)
    requires a <= 3 && b <= 5 && c <= 5 && (b > 0 ==> a == 3) && (c > 0 ==> b == 5)
    ensures var hs := [ReleaseNow] + (Only(WrClock, a) + (Only(RdClock, b) + Only(WrClock, c)));
            var chain := ObserveAll(Observe(start, AssertNow), hs).chain;
            (chain.RdAclrn() <==> a == 3 && b == 5) && (chain.WrAclrn() <==> a == 3 && b == 5 && c == 5)
  {
    var rest := Only(WrClock, a) + (Only(RdClock, b) + Only(WrClock, c));
    var hs := [ReleaseNow] + rest;
    var r := Release(true, 0);
    assert hs[1..] == rest;
    assert CountAll(Release(false, 0), hs) == CountAll(r, rest);
    CountJoins(r, Only(WrClock, a), Only(RdClock, b) + Only(WrClock, c));
    CountOnly(r, WrClock, a);
    if b == 0 {
      assert Only(RdClock, b) == [] && Only(WrClock, c) == [];
      assert CountAll(Release(true, a), Only(RdClock, b) + Only(WrClock, c)) == Release(true, a);
    } else {
      CountJoins(Release(true, 3), Only(RdClock, b), Only(WrClock, c));
      CountOnly(Release(true, 3), RdClock, b);
      if c == 0 {
        assert Only(WrClock, c) == [];
      } else {
        CountOnly(Release(true, 8), WrClock, c);
      }
    }
    ReleasedExactlyWhen(start, hs);
  }
}
