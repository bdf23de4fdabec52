/** The reset synchroniser of the dual-clock FIFO: one asynchronous reset in, for each clock an
    asynchronously cleared reset and a synchronous reset out, all active low. */
module ResetSync {

  datatype Chain = Chain(
    asyncResetn: bool,
    wrHead: bool, wrBody0: bool, wrBody1: bool,              // asyncResetn synchronised to wr_clock
    rdHead: bool, rdBody0: bool, rdBody1: bool,              // that, synchronised to rd_clock
    rdSyncPipe0: bool, rdSyncPipe1: bool,                    // pipeline without reset
    rdAsyncPipe0: bool, rdAsyncPipe1: bool,                  // matching pipeline with asynchronous clear
    wrAgainHead: bool, wrAgainBody0: bool, wrAgainBody1: bool, // rdAclrn synchronised back to wr_clock
    wrSyncPipe0: bool, wrSyncPipe1: bool,
    wrAsyncPipe0: bool, wrAsyncPipe1: bool)
  {
    predicate RdAclrn() { rdAsyncPipe1 }

    predicate RdSclrn() { rdSyncPipe1 }

    predicate WrAclrn() { wrAsyncPipe1 }

    predicate WrSclrn() { wrSyncPipe1 }
  }

  // The asynchronous reset goes low: everything with an asynchronous clear falls at once, through the whole chain.
  function Assert(c: Chain): Chain {
    c.(asyncResetn := false, wrHead := false, wrBody0 := false, wrBody1 := false,
       rdHead := false, rdBody0 := false, rdBody1 := false, rdAsyncPipe0 := false, rdAsyncPipe1 := false,
       wrAgainHead := false, wrAgainBody0 := false, wrAgainBody1 := false,
       wrAsyncPipe0 := false, wrAsyncPipe1 := false)
  }

  function Release(c: Chain): Chain {
    c.(asyncResetn := true)
  }

  // An edge of wr_clock. sawRelease: rdAclrn is just being released by a simultaneous edge of rd_clock,
  // and the first flop behind it already sees that.
  function WrEdge(c: Chain, sawRelease: bool): Chain {
    c.(wrHead := c.asyncResetn,
       wrBody0 := c.asyncResetn && c.wrHead,
       wrBody1 := c.asyncResetn && c.wrBody0,
       wrAgainHead := c.RdAclrn() || sawRelease,
       wrAgainBody0 := c.RdAclrn() && c.wrAgainHead,
       wrAgainBody1 := c.RdAclrn() && c.wrAgainBody0,
       wrSyncPipe0 := c.wrAgainBody1,
       wrSyncPipe1 := c.wrSyncPipe0,
       wrAsyncPipe0 := c.RdAclrn() && c.wrAgainBody1,
       wrAsyncPipe1 := c.RdAclrn() && c.wrAsyncPipe0)
  }

  // An edge of rd_clock; sawRelease likewise, for the release of wrBody1.
  function RdEdge(c: Chain, sawRelease: bool): Chain {
    c.(rdHead := c.wrBody1 || sawRelease,
       rdBody0 := c.wrBody1 && c.rdHead,
       rdBody1 := c.wrBody1 && c.rdBody0,
       rdSyncPipe0 := c.rdBody1,
       rdSyncPipe1 := c.rdSyncPipe0,
       rdAsyncPipe0 := c.wrBody1 && c.rdBody1,
       rdAsyncPipe1 := c.wrBody1 && c.rdAsyncPipe0)
  }

  // Both clocks, or one of them. Each edge reads the old values of the other domain, except that
  // a flop whose clear is being released at that moment may or may not already be free.
  function Edge(c: Chain, wr: bool, rd: bool, wrMaySee: bool, rdMaySee: bool): Chain {
    var wrBody1' := if wr then c.asyncResetn && c.wrBody0 else c.wrBody1;
    var rdAclrn' := if rd then c.wrBody1 && c.rdAsyncPipe0 else c.rdAsyncPipe1;
    var c1 := if wr then WrEdge(c, wrMaySee && rdAclrn') else c;
    var c2 := if rd then RdEdge(c, rdMaySee && wrBody1') else c;
    Chain(c.asyncResetn, c1.wrHead, c1.wrBody0, c1.wrBody1, c2.rdHead, c2.rdBody0, c2.rdBody1,
          c2.rdSyncPipe0, c2.rdSyncPipe1, c2.rdAsyncPipe0, c2.rdAsyncPipe1,
          c1.wrAgainHead, c1.wrAgainBody0, c1.wrAgainBody1,
          c1.wrSyncPipe0, c1.wrSyncPipe1, c1.wrAsyncPipe0, c1.wrAsyncPipe1)
  }

  // After a first assertion the chain fills from its head, and the pipelines with and without
  // asynchronous clear agree from the first clock edges of the release on.
  predicate ChainInv(c: Chain) {
    && (c.wrHead ==> c.asyncResetn) && (c.wrBody0 ==> c.wrHead) && (c.wrBody1 ==> c.wrBody0)
    && (c.rdHead ==> c.wrBody1) && (c.rdBody0 ==> c.rdHead) && (c.rdBody1 ==> c.rdBody0)
    && (c.rdAsyncPipe0 ==> c.rdBody1) && (c.rdAsyncPipe1 ==> c.rdAsyncPipe0)
    && (c.wrAgainHead ==> c.rdAsyncPipe1) && (c.wrAgainBody0 ==> c.wrAgainHead) && (c.wrAgainBody1 ==> c.wrAgainBody0)
    && (c.wrAsyncPipe0 ==> c.wrAgainBody1) && (c.wrAsyncPipe1 ==> c.wrAsyncPipe0)
    && (c.rdHead ==> c.rdSyncPipe0 == c.rdAsyncPipe0) && (c.rdBody0 ==> c.rdSyncPipe1 == c.rdAsyncPipe1)
    && (c.wrAgainHead ==> c.wrSyncPipe0 == c.wrAsyncPipe0) && (c.wrAgainBody0 ==> c.wrSyncPipe1 == c.wrAsyncPipe1)
  }

  lemma AssertEstablishes(c: Chain)
    ensures ChainInv(Assert(c))
  {
  }

  lemma ChainStep(c: Chain, wr: bool, rd: bool, wrMaySee: bool, rdMaySee: bool)
    requires ChainInv(c)
    ensures ChainInv(Edge(c, wr, rd, wrMaySee, rdMaySee))
    ensures ChainInv(Release(c))
  {
  }
}
