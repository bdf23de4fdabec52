/** The two clock domains of the FIFO, out of reset, as two agents that pass tokens round a ring:
    the write side turns free places into written words, the read side turns written words back
    into free places. Each agent has a buffer of tokens it may use, and reports what it has used
    through its port. The two agents follow the same rules. */
module TokenRing {
  import opened ToggleLane
  import opened Port

  datatype Agent = Agent(buffer: int, port: Port)

  // The bits one clock edge samples from the other domain.
  datatype Crossing = Crossing(sample: Trio<bool>, back: Trio<bool>)

  function AgentEdge(a: Agent, hiModulus: nat, pipeline: bool, event: bool, seen: Crossing): Agent
    requires hiModulus > 0
  {
    Agent(a.buffer + Update(a.port.rx, pipeline) - Bit(event),
          PortEdge(a.port, hiModulus, event, seen.sample, seen.back))
  }

  // What an edge of one clock may see of the other domain, when that domain may be changing at the same time.
  predicate Crosses(seen: Crossing, other: Port, other': Port) {
    && Sampled3(seen.sample, Toggles(other.tx), Toggles(other'.tx))
    && Sampled3(seen.back, Seen(other.rx), Seen(other'.rx))
  }

  // An edge of the first clock, of the second, or of both at once.
  predicate RingEdge(a: Agent, b: Agent, a': Agent, b': Agent, hiModulus: nat, pipeline: bool,
                     aEdge: bool, bEdge: bool, aEvent: bool, bEvent: bool, aSeen: Crossing, bSeen: Crossing)
    requires hiModulus > 0
  {
    && a' == (if aEdge then AgentEdge(a, hiModulus, pipeline, aEvent, aSeen) else a)
    && b' == (if bEdge then AgentEdge(b, hiModulus, pipeline, bEvent, bSeen) else b)
    && Crosses(aSeen, b.port, b'.port)
    && Crosses(bSeen, a.port, a'.port)
  }

  // Some flip of tx has not reached the first, second, third synchroniser stage of rx.
  predicate Before1(tx: Trio<Tx>, rx: Trio<Rx>) {
    tx.one.toggle != rx.one.sync1 || tx.two.toggle != rx.two.sync1 || tx.four.toggle != rx.four.sync1
  }

  predicate Before2(tx: Trio<Tx>, rx: Trio<Rx>) {
    tx.one.toggle != rx.one.sync2 || tx.two.toggle != rx.two.sync2 || tx.four.toggle != rx.four.sync2
  }

  predicate Before3(tx: Trio<Tx>, rx: Trio<Rx>) {
    tx.one.toggle != rx.one.sync3 || tx.two.toggle != rx.two.sync3 || tx.four.toggle != rx.four.sync3
  }

  // Tokens that left a and have not been sent back by b.
  function Away(a: Agent, b: Agent, pipeline: bool): int {
    Flying(a.port.tx, b.port.rx, pipeline) + b.buffer + Value(b.port.left)
  }

  /** The read-back of a toggle overtakes the tokens it stands for: as long as the read-back has
      not reached stage k, some token of a has not come back to stage k of its synchroniser. */
  predicate ReadBackLeads(a: Agent, b: Agent, pipeline: bool) {
    var t := a.port.tx.one;
    && (t.toggle != t.back1 ==> Away(a, b, pipeline) > 0 || Before1(b.port.tx, a.port.rx))
    && (t.toggle != t.back2 ==> Away(a, b, pipeline) > 0 || Before2(b.port.tx, a.port.rx))
    && (t.toggle != t.back3 ==> Away(a, b, pipeline) > 0 || Before3(b.port.tx, a.port.rx))
  }

  function Tokens(a: Agent, b: Agent, pipeline: bool): int {
    a.buffer + Outstanding(a.port, b.port.rx, pipeline) + b.buffer + Outstanding(b.port, a.port.rx, pipeline)
  }

  predicate RingInv(a: Agent, b: Agent, hiModulus: nat, pipeline: bool, tokens: nat) {
    && tokens <= 4 * hiModulus
    && a.buffer >= 0
    && b.buffer >= 0
    && LinkInv(a.port, b.port.rx, hiModulus)
    && LinkInv(b.port, a.port.rx, hiModulus)
    && Tokens(a, b, pipeline) == tokens
    && ReadBackLeads(a, b, pipeline)
    && ReadBackLeads(b, a, pipeline)
  }

  lemma LaneBefore(tx: Tx, rx: Rx, tx': Tx, rx': Rx, txEdge: bool, rxEdge: bool, send: bool, sample: bool, back: bool)
    requires LaneInv(tx, rx)
    requires send ==> Ready(tx)
    requires tx' == if txEdge then TxEdge(tx, send, back) else tx
    requires rx' == if rxEdge then RxEdge(rx, sample) else rx
    ensures !rxEdge ==> (tx'.toggle != rx'.sync1 <==> tx.toggle != rx.sync1 || (txEdge && send))
    ensures (tx'.toggle != rx'.sync2) == ((if rxEdge then tx.toggle != rx.sync1 else tx.toggle != rx.sync2)
                                          || (txEdge && send))
    ensures (tx'.toggle != rx'.sync3) == ((if rxEdge then tx.toggle != rx.sync2 else tx.toggle != rx.sync3)
                                          || (txEdge && send))
  {
  }

  // Over an edge of the sender nothing is lost in front of a stage; over an edge of the receiver it moves on by one
  // stage.
  lemma BeforeStep(tx: Trio<Tx>, rx: Trio<Rx>, tx': Trio<Tx>, rx': Trio<Rx>, txEdge: bool, rxEdge: bool,
                   send: Trio<bool>, sample: Trio<bool>, back: Trio<bool>)
    requires LanesInv(tx, rx)
    requires send.one ==> Ready(tx.one)
    requires send.two ==> Ready(tx.two)
    requires send.four ==> Ready(tx.four)
    requires tx' == if txEdge then Tx3Edge(tx, send, back) else tx
    requires rx' == if rxEdge then Rx3Edge(rx, sample) else rx
    ensures var sent := txEdge && (send.one || send.two || send.four);
            && (!rxEdge ==> Before1(tx', rx') == (Before1(tx, rx) || sent))
            && Before2(tx', rx') == ((if rxEdge then Before1(tx, rx) else Before2(tx, rx)) || sent)
            && Before3(tx', rx') == ((if rxEdge then Before2(tx, rx) else Before3(tx, rx)) || sent)
  {
    hide LaneInv, OneTransition, Ready, TxEdge, RxEdge;
    LaneBefore(tx.one, rx.one, tx'.one, rx'.one, txEdge, rxEdge, send.one, sample.one, back.one);
    LaneBefore(tx.two, rx.two, tx'.two, rx'.two, txEdge, rxEdge, send.two, sample.two, back.two);
    LaneBefore(tx.four, rx.four, tx'.four, rx'.four, txEdge, rxEdge, send.four, sample.four, back.four);
  }

  // A counter at its limit would need more tokens than the ring has.
  lemma NoOverflow(a: Agent, b: Agent, hiModulus: nat, pipeline: bool, tokens: nat)
    requires RingInv(a, b, hiModulus, pipeline, tokens)
    requires a.buffer > 0
    ensures !AtLimit(a.port, hiModulus)
  {
    hide LanesInv, LaneInv, LeftInv, OneTransition;
    if AtLimit(a.port, hiModulus) {
      assert Before3(b.port.tx, a.port.rx) ==> Flying(b.port.tx, a.port.rx, pipeline) > 0;
      assert Tokens(a, b, pipeline)
          == a.buffer + Value(a.port.left) + Away(a, b, pipeline) + Flying(b.port.tx, a.port.rx, pipeline);
      AwayNotNegative(a, b, hiModulus, pipeline, tokens);
    }
  }

  lemma AwayNotNegative(a: Agent, b: Agent, hiModulus: nat, pipeline: bool, tokens: nat)
    requires RingInv(a, b, hiModulus, pipeline, tokens)
    ensures Away(a, b, pipeline) >= 0
    ensures Value(b.port.left) >= 0
  {
    hide LanesInv, LaneInv, OneTransition;
  }

  // Whatever the first read-back stage has not seen is still on its way to the other side.
  lemma UnseenIsFlying(tx: Tx, rx: Rx, rx': Rx, rxEdge: bool, send: bool, sample: bool, back: bool, pipeline: bool)
    requires LaneInv(tx, rx)
    requires send ==> Ready(tx)
    requires rx' == if rxEdge then RxEdge(rx, sample) else rx
    requires Sampled(back, rx.sync3, rx'.sync3)
    ensures var tx' := TxEdge(tx, send, back);
            && (tx'.toggle != tx'.back1 ==> InFlight(tx', rx', pipeline) > 0)
            && (send ==> tx'.toggle != tx'.back1)
  {
  }

  lemma SendsNothing(send: Trio<bool>)
    ensures Weight(send) == 0 <==> !(send.one || send.two || send.four)
  {
  }

  // The tokens away from a change by what a sends and by what b sends back.
  lemma AwayStep(a: Agent, b: Agent, a': Agent, b': Agent, hiModulus: nat, pipeline: bool, tokens: nat,
                 aEdge: bool, bEdge: bool, aEvent: bool, bEvent: bool, aSeen: Crossing, bSeen: Crossing)
    requires hiModulus > 0
    requires RingInv(a, b, hiModulus, pipeline, tokens)
    requires RingEdge(a, b, a', b', hiModulus, pipeline, aEdge, bEdge, aEvent, bEvent, aSeen, bSeen)
    requires bEvent ==> b.buffer > 0
    ensures Away(a', b', pipeline) == Away(a, b, pipeline)
         + (if aEdge then Weight(ToSend(a.port.left, a.port.tx)) else 0)
         - (if bEdge then Weight(ToSend(b.port.left, b.port.tx)) else 0)
    ensures b'.buffer >= 0
    ensures LinkInv(b'.port, a'.port.rx, hiModulus)
    ensures Outstanding(b'.port, a'.port.rx, pipeline) == Outstanding(b.port, a.port.rx, pipeline)
         + Bit(bEdge && bEvent) - (if aEdge then Update(a.port.rx, pipeline) else 0)
  {
    hide LanesInv, LaneInv, LeftInv, Ready, ReadBackLeads, Weight, Sampled3, Flying, LeftEdge, Tx3Edge, Rx3Edge,
        AtLimit, Value, Update;
    if bEvent {
      NoOverflow(b, a, hiModulus, pipeline, tokens);
    }
    LinkStep(b.port, a.port.rx, b'.port, a'.port.rx, hiModulus, pipeline, bEdge, aEdge, bEvent,
             bSeen.sample, aSeen.sample, bSeen.back);
    LanesFlow(a.port.tx, b.port.rx, a'.port.tx, b'.port.rx, pipeline, aEdge, bEdge,
              ToSend(a.port.left, a.port.tx), bSeen.sample, aSeen.back);
  }

  // The read-back keeps its lead, whichever clocks have an edge.
  lemma LeadStep(a: Agent, b: Agent, a': Agent, b': Agent, hiModulus: nat, pipeline: bool, tokens: nat,
                 aEdge: bool, bEdge: bool, aEvent: bool, bEvent: bool, aSeen: Crossing, bSeen: Crossing)
    requires hiModulus > 0
    requires RingInv(a, b, hiModulus, pipeline, tokens)
    requires RingEdge(a, b, a', b', hiModulus, pipeline, aEdge, bEdge, aEvent, bEvent, aSeen, bSeen)
    requires bEvent ==> b.buffer > 0
    ensures ReadBackLeads(a', b', pipeline)
  {
    var aSend, bSend := ToSend(a.port.left, a.port.tx), ToSend(b.port.left, b.port.tx);
    AwayStep(a, b, a', b', hiModulus, pipeline, tokens, aEdge, bEdge, aEvent, bEvent, aSeen, bSeen);
    AwayNotNegative(a, b, hiModulus, pipeline, tokens);
    BeforeStep(b.port.tx, a.port.rx, b'.port.tx, a'.port.rx, bEdge, aEdge, bSend, aSeen.sample, bSeen.back);
    SendsNothing(bSend);
    if aEdge {
      UnseenIsFlying(a.port.tx.one, b.port.rx.one, b'.port.rx.one, bEdge, aSend.one, bSeen.sample.one, aSeen.back.one,
                     pipeline);
      if a'.port.tx.one.toggle != a'.port.tx.one.back1 {
        UnseenIsAway(a', b', hiModulus, pipeline);
      }
    }
    hide LanesInv, LaneInv, LeftInv, LinkInv, Outstanding, Tokens, Away, Before1, Before2, Before3, Weight, Value,
        Update, InFlight, Flying, RxEdge, LeftEdge;
  }

  lemma UnseenIsAway(a: Agent, b: Agent, hiModulus: nat, pipeline: bool)
    requires b.buffer >= 0
    requires LeftInv(b.port.left, b.port.tx.four, hiModulus)
    requires InFlight(a.port.tx.one, b.port.rx.one, pipeline) > 0
    ensures Away(a, b, pipeline) > 0
  {
  }

  /** Every edge of either clock, or of both at once with any mix of old and new bits crossing,
      keeps the ring: no token is lost or made, no counter overflows, the read-back stays ahead. */
  lemma RingStep(a: Agent, b: Agent, a': Agent, b': Agent, hiModulus: nat, pipeline: bool, tokens: nat,
                 aEdge: bool, bEdge: bool, aEvent: bool, bEvent: bool, aSeen: Crossing, bSeen: Crossing)
    requires hiModulus > 0
    requires RingInv(a, b, hiModulus, pipeline, tokens)
    requires RingEdge(a, b, a', b', hiModulus, pipeline, aEdge, bEdge, aEvent, bEvent, aSeen, bSeen)
    requires aEvent ==> a.buffer > 0
    requires bEvent ==> b.buffer > 0
    ensures RingInv(a', b', hiModulus, pipeline, tokens)
    ensures Outstanding(a'.port, b'.port.rx, pipeline) == Outstanding(a.port, b.port.rx, pipeline)
         + Bit(aEdge && aEvent) - (if bEdge then Update(b.port.rx, pipeline) else 0)
    ensures Outstanding(b'.port, a'.port.rx, pipeline) == Outstanding(b.port, a.port.rx, pipeline)
         + Bit(bEdge && bEvent) - (if aEdge then Update(a.port.rx, pipeline) else 0)
  {
    hide LinkInv, ReadBackLeads, Outstanding, Crosses, PortEdge, Update;
    assert RingInv(b, a, hiModulus, pipeline, tokens);
    assert RingEdge(b, a, b', a', hiModulus, pipeline, bEdge, aEdge, bEvent, aEvent, bSeen, aSeen);
    AwayStep(a, b, a', b', hiModulus, pipeline, tokens, aEdge, bEdge, aEvent, bEvent, aSeen, bSeen);
    AwayStep(b, a, b', a', hiModulus, pipeline, tokens, bEdge, aEdge, bEvent, aEvent, bSeen, aSeen);
    LeadStep(a, b, a', b', hiModulus, pipeline, tokens, aEdge, bEdge, aEvent, bEvent, aSeen, bSeen);
    LeadStep(b, a, b', a', hiModulus, pipeline, tokens, bEdge, aEdge, bEvent, aEvent, bSeen, aSeen);
  }
}
