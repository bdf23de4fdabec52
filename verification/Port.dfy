/** What one clock domain of the dual-clock FIFO owns of the two toggle links: the counter of
    events it still has to report, the three toggles it sends (+1, +2, +4) and the receiving end
    of the three toggles of the other domain. */
module Port {
  import opened ToggleLane

  datatype Trio<+T> = Trio(one: T, two: T, four: T)

  // Events not reported yet. The bits above the lowest two are updated one clock late, from hiIncr and hiDecr.
  datatype Leftover = Leftover(lo: nat, hi: nat, hiIncr: bool, hiDecr: bool)

  datatype Port = Port(left: Leftover, tx: Trio<Tx>, rx: Trio<Rx>)

  const LEFT_CLEAR := Leftover(0, 0, false, false)
  const TX3_CLEAR := Trio(TX_CLEAR, TX_CLEAR, TX_CLEAR)
  const RX3_CLEAR := Trio(RX_CLEAR, RX_CLEAR, RX_CLEAR)

  // The events the counter really stands for, its delayed carry and borrow included.
  function Value(l: Leftover): int {
    l.lo + 4 * (l.hi + Bit(l.hiIncr) - Bit(l.hiDecr))
  }

  function ToSend(l: Leftover, tx: Trio<Tx>): Trio<bool> {
    Trio(l.lo % 2 == 1 && Ready(tx.one), l.lo / 2 % 2 == 1 && Ready(tx.two), l.hi != 0 && Ready(tx.four))
  }

  function Weight(b: Trio<bool>): (n: nat)
    ensures n <= 7
  {
    Bit(b.one) + 2 * Bit(b.two) + 4 * Bit(b.four)
  }

  // The low bits that stay after masking the ones that are sent.
  function Masked(lo: nat, send: Trio<bool>): nat {
    (if lo % 2 == 1 && !send.one then 1 else 0) + (if lo / 2 % 2 == 1 && !send.two then 2 else 0)
  }

  // hiModulus is 2^(ADDR-2), the size of the upper part of the counter.
  function LeftEdge(l: Leftover, hiModulus: nat, send: Trio<bool>, event: bool): Leftover
    requires hiModulus > 0
  {
    Leftover((Masked(l.lo, send) + Bit(event)) % 4,
             if l.hiIncr && !l.hiDecr then (l.hi + 1) % hiModulus
             else if !l.hiIncr && l.hiDecr then (l.hi - 1) % hiModulus
             else l.hi,
             l.lo == 3 && !send.one && !send.two && event,
             send.four)
  }

  function Tx3Edge(tx: Trio<Tx>, send: Trio<bool>, back: Trio<bool>): Trio<Tx> {
    Trio(TxEdge(tx.one, send.one, back.one), TxEdge(tx.two, send.two, back.two), TxEdge(tx.four, send.four, back.four))
  }

  function Rx3Edge(rx: Trio<Rx>, sample: Trio<bool>): Trio<Rx> {
    Trio(RxEdge(rx.one, sample.one), RxEdge(rx.two, sample.two), RxEdge(rx.four, sample.four))
  }

  // One edge of the clock of this port, out of reset.
  function PortEdge(p: Port, hiModulus: nat, event: bool, sample: Trio<bool>, back: Trio<bool>): Port
    requires hiModulus > 0
  {
    var send := ToSend(p.left, p.tx);
    Port(LeftEdge(p.left, hiModulus, send, event), Tx3Edge(p.tx, send, back), Rx3Edge(p.rx, sample))
  }

  // The 3-bit update that the receiving side adds to or subtracts from its counters.
  function Update(rx: Trio<Rx>, pipeline: bool): (n: nat)
    ensures n <= 7
  {
    Weight(Trio(Pulse(rx.one, pipeline), Pulse(rx.two, pipeline), Pulse(rx.four, pipeline)))
  }

  function Toggles(tx: Trio<Tx>): Trio<bool> {
    Trio(tx.one.toggle, tx.two.toggle, tx.four.toggle)
  }

  function Seen(rx: Trio<Rx>): Trio<bool> {
    Trio(rx.one.sync3, rx.two.sync3, rx.four.sync3)
  }

  // Each bit crosses on its own: any of the three may be seen before or after its change.
  predicate Sampled3(seen: Trio<bool>, before: Trio<bool>, after: Trio<bool>) {
    && Sampled(seen.one, before.one, after.one)
    && Sampled(seen.two, before.two, after.two)
    && Sampled(seen.four, before.four, after.four)
  }

  // Events that were sent from tx and have not come out at rx.
  function Flying(tx: Trio<Tx>, rx: Trio<Rx>, pipeline: bool): nat {
    InFlight(tx.one, rx.one, pipeline) + 2 * InFlight(tx.two, rx.two, pipeline)
    + 4 * InFlight(tx.four, rx.four, pipeline)
  }

  // Events that happened at p and have not come out at rx: the counter and the toggles together.
  function Outstanding(p: Port, rx: Trio<Rx>, pipeline: bool): int {
    Value(p.left) + Flying(p.tx, rx, pipeline)
  }

  predicate LeftInv(l: Leftover, four: Tx, hiModulus: nat) {
    && l.lo < 4
    && l.hi < hiModulus
    && Value(l) < 4 * hiModulus
    // The upper bits are stale only while the +4 toggle has just been flipped.
    && (l.hiDecr ==> l.hi > 0 && four.toggle != four.back1)
  }

  predicate LinkInv(p: Port, rx: Trio<Rx>, hiModulus: nat) {
    && LanesInv(p.tx, rx)
    && LeftInv(p.left, p.tx.four, hiModulus)
  }

  // The counter cannot take another event without the carry out of its top bit.
  predicate AtLimit(p: Port, hiModulus: nat) {
    Value(p.left) == 4 * hiModulus - 1 && !Ready(p.tx.one)
  }

  lemma MaskedValue(lo: nat, send: Trio<bool>)
    requires lo < 4
    requires send.one ==> lo % 2 == 1
    requires send.two ==> lo / 2 % 2 == 1
    ensures Masked(lo, send) == lo - Bit(send.one) - 2 * Bit(send.two)
  {
    assert lo == lo % 2 + 2 * (lo / 2 % 2);
  }

  /** A +4 leaves only when four events or more are really outstanding in the counter, although
      its upper bits may be one clock out of date; and in general no more is sent than is there. */
  lemma SendIsBacked(l: Leftover, tx: Trio<Tx>, hiModulus: nat)
    requires LeftInv(l, tx.four, hiModulus)
    requires l.hiDecr ==> !Ready(tx.four)
    ensures ToSend(l, tx).four ==> Value(l) >= 4
    ensures 0 <= Weight(ToSend(l, tx)) <= Value(l)
  {
    MaskedValue(l.lo, ToSend(l, tx));
  }

  // The upper bits never leave their range, in either direction.
  lemma HiStep(l: Leftover, four: Tx, hiModulus: nat, send: Trio<bool>, event: bool)
    requires hiModulus > 0
    requires LeftInv(l, four, hiModulus)
    ensures LeftEdge(l, hiModulus, send, event).hi == l.hi + Bit(l.hiIncr) - Bit(l.hiDecr) < hiModulus
  {
    var h := l.hi + Bit(l.hiIncr) - Bit(l.hiDecr);
    assert 4 * h <= Value(l);
    assert 0 <= h < hiModulus;
  }

  lemma LeftStep(l: Leftover, tx: Trio<Tx>, hiModulus: nat, event: bool, back: bool)
    requires hiModulus > 0
    requires LeftInv(l, tx.four, hiModulus)
    requires l.hiDecr ==> !Ready(tx.four)
    requires event ==> Value(l) < 4 * hiModulus - 1 || Ready(tx.one)
    requires ToSend(l, tx).four ==> back == tx.four.toggle
    ensures var send := ToSend(l, tx);
            var left' := LeftEdge(l, hiModulus, send, event);
            && LeftInv(left', TxEdge(tx.four, send.four, back), hiModulus)
            && Value(left') == Value(l) + Bit(event) - Weight(send)
  {
    var send := ToSend(l, tx);
    MaskedValue(l.lo, send);
    HiStep(l, tx.four, hiModulus, send, event);
    SendIsBacked(l, tx, hiModulus);
    var left' := LeftEdge(l, hiModulus, send, event);
    assert left'.lo + 4 * Bit(left'.hiIncr) == Masked(l.lo, send) + Bit(event);
    assert Value(left') == Value(l) + Bit(event) - Weight(send);
  }

  // While a toggle is ready every copy of it agrees, so it is read back the same whenever it is sampled.
  lemma ReadyIsSettled(tx: Tx, rx: Rx, rx': Rx, rxEdge: bool, sample: bool, back: bool)
    requires LaneInv(tx, rx)
    requires Ready(tx)
    requires rx' == if rxEdge then RxEdge(rx, sample) else rx
    requires Sampled(back, rx.sync3, rx'.sync3)
    ensures back == tx.toggle == rx.sync1 == rx.sync2 == rx.sync3 == tx.back1 == tx.back2
  {
  }

  predicate LanesInv(tx: Trio<Tx>, rx: Trio<Rx>) {
    LaneInv(tx.one, rx.one) && LaneInv(tx.two, rx.two) && LaneInv(tx.four, rx.four)
  }

  // What each lane keeps and passes on, when the three are clocked together.
  lemma LanesStep(tx: Trio<Tx>, rx: Trio<Rx>, tx': Trio<Tx>, rx': Trio<Rx>, pipeline: bool, txEdge: bool, rxEdge: bool,
                  send: Trio<bool>, sample: Trio<bool>, back: Trio<bool>)
    requires LanesInv(tx, rx)
    requires send.one ==> Ready(tx.one)
    requires send.two ==> Ready(tx.two)
    requires send.four ==> Ready(tx.four)
    requires tx' == if txEdge then Tx3Edge(tx, send, back) else tx
    requires rx' == if rxEdge then Rx3Edge(rx, sample) else rx
    requires Sampled3(sample, Toggles(tx), Toggles(tx'))
    requires Sampled3(back, Seen(rx), Seen(rx'))
    ensures LanesInv(tx', rx')
    ensures InFlight(tx'.one, rx'.one, pipeline) + Bit(rxEdge && Pulse(rx.one, pipeline))
         == InFlight(tx.one, rx.one, pipeline) + Bit(txEdge && send.one)
    ensures InFlight(tx'.two, rx'.two, pipeline) + Bit(rxEdge && Pulse(rx.two, pipeline))
         == InFlight(tx.two, rx.two, pipeline) + Bit(txEdge && send.two)
    ensures InFlight(tx'.four, rx'.four, pipeline) + Bit(rxEdge && Pulse(rx.four, pipeline))
         == InFlight(tx.four, rx.four, pipeline) + Bit(txEdge && send.four)
  {
    LaneStep(tx.one, rx.one, tx'.one, rx'.one, pipeline, txEdge, rxEdge, send.one, sample.one, back.one);
    LaneStep(tx.two, rx.two, tx'.two, rx'.two, pipeline, txEdge, rxEdge, send.two, sample.two, back.two);
    LaneStep(tx.four, rx.four, tx'.four, rx'.four, pipeline, txEdge, rxEdge, send.four, sample.four, back.four);
  }

  lemma LanesFlow(tx: Trio<Tx>, rx: Trio<Rx>, tx': Trio<Tx>, rx': Trio<Rx>, pipeline: bool, txEdge: bool, rxEdge: bool,
                  send: Trio<bool>, sample: Trio<bool>, back: Trio<bool>)
    requires LanesInv(tx, rx)
    requires send.one ==> Ready(tx.one)
    requires send.two ==> Ready(tx.two)
    requires send.four ==> Ready(tx.four)
    requires tx' == if txEdge then Tx3Edge(tx, send, back) else tx
    requires rx' == if rxEdge then Rx3Edge(rx, sample) else rx
    requires Sampled3(sample, Toggles(tx), Toggles(tx'))
    requires Sampled3(back, Seen(rx), Seen(rx'))
    ensures LanesInv(tx', rx')
    ensures Flying(tx', rx', pipeline) + (if rxEdge then Update(rx, pipeline) else 0)
         == Flying(tx, rx, pipeline) + (if txEdge then Weight(send) else 0)
  {
    hide LanesInv, LaneInv, InFlight, Pulse, Ready, Tx3Edge, Rx3Edge, TxEdge, RxEdge, Sampled3, Sampled;
    LanesStep(tx, rx, tx', rx', pipeline, txEdge, rxEdge, send, sample, back);
  }

  /** Conservation on one link, for an edge of either or both clocks: what is outstanding changes
      by the new event and by what the receiver takes out, and by nothing else. */
  lemma LinkStep(p: Port, rx: Trio<Rx>, p': Port, rx': Trio<Rx>, hiModulus: nat, pipeline: bool, pEdge: bool,
                 rxEdge: bool,
                 event: bool, ownSample: Trio<bool>, sample: Trio<bool>, back: Trio<bool>)
    requires hiModulus > 0
    requires LinkInv(p, rx, hiModulus)
    requires pEdge && event ==> !AtLimit(p, hiModulus)
    requires p' == if pEdge then PortEdge(p, hiModulus, event, ownSample, back) else p
    requires rx' == if rxEdge then Rx3Edge(rx, sample) else rx
    requires Sampled3(sample, Toggles(p.tx), Toggles(p'.tx))
    requires Sampled3(back, Seen(rx), Seen(rx'))
    ensures LinkInv(p', rx', hiModulus)
    ensures Value(p'.left) == Value(p.left) + Bit(pEdge && event) - (if pEdge then Weight(ToSend(p.left, p.tx)) else 0)
    ensures Outstanding(p', rx', pipeline)
         == Outstanding(p, rx, pipeline) + Bit(pEdge && event) - (if rxEdge then Update(rx, pipeline) else 0)
  {
    hide LaneInv, OneTransition, InFlight, Pulse, RxEdge, Flying, Update, Weight, LeftEdge;
    var send := ToSend(p.left, p.tx);
    LanesFlow(p.tx, rx, p'.tx, rx', pipeline, pEdge, rxEdge, send, sample, back);
    if pEdge {
      if Ready(p.tx.four) {
        ReadyIsSettled(p.tx.four, rx.four, rx'.four, rxEdge, sample.four, back.four);
      }
      LeftStep(p.left, p.tx, hiModulus, event, back.four);
    }
  }
}
