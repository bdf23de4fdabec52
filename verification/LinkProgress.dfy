/** Why a link of the FIFO never gets stuck: a measure of what it still has to do, which no edge
    increases while no new event comes in, and which an edge of the clock in demand decreases. */
module LinkProgress {
  import opened ToggleLane
  import opened Port

  // Register changes a lane still has ahead of it, weighted so that each one costs the measure.
  function LaneWork(tx: Tx, rx: Rx): nat {
    4 * (Bit(rx.sync1 != tx.toggle) + Bit(rx.sync2 != tx.toggle) + Bit(rx.sync3 != tx.toggle)
         + Bit(tx.back1 != tx.toggle) + Bit(tx.back2 != tx.toggle) + Bit(tx.back3 != tx.toggle))
    + 2 * Bit(rx.sync3 != rx.prev) + Bit(rx.piped)
  }

  // An edge of the sender's clock changes something of the lane, even if nothing new is sent.
  predicate TxBusy(tx: Tx, rx: Rx) {
    rx.sync3 != tx.back1 || tx.back1 != tx.back2 || tx.back2 != tx.back3
  }

  predicate RxBusy(tx: Tx, rx: Rx) {
    tx.toggle != rx.sync1 || rx.sync1 != rx.sync2 || rx.sync2 != rx.sync3 || rx.sync3 != rx.prev || rx.piped
  }

  lemma LaneWorkStep(tx: Tx, rx: Rx, tx': Tx, rx': Rx, txEdge: bool, rxEdge: bool, send: bool, sample: bool, back: bool)
    requires LaneInv(tx, rx)
    requires send ==> Ready(tx)
    requires tx' == if txEdge then TxEdge(tx, send, back) else tx
    requires rx' == if rxEdge then RxEdge(rx, sample) else rx
    requires Sampled(sample, tx.toggle, tx'.toggle)
    requires Sampled(back, rx.sync3, rx'.sync3)
    ensures LaneWork(tx', rx') + Bit(txEdge && TxBusy(tx, rx)) + Bit(rxEdge && RxBusy(tx, rx))
         <= LaneWork(tx, rx) + 24 * Bit(txEdge && send)
    ensures !(txEdge && (send || TxBusy(tx, rx))) && !(rxEdge && RxBusy(tx, rx)) ==> tx' == tx && rx' == rx
    ensures !Ready(tx) ==> TxBusy(tx, rx) || RxBusy(tx, rx)
    ensures LaneWork(tx, rx) > 0 ==> TxBusy(tx, rx) || RxBusy(tx, rx)
  {
  }

  function LanesWork(tx: Trio<Tx>, rx: Trio<Rx>): nat {
    LaneWork(tx.one, rx.one) + LaneWork(tx.two, rx.two) + LaneWork(tx.four, rx.four)
  }

  // The measure of a link. An event that is still to be sent costs more than everything a toggle does for it.
  function Work(p: Port, rx: Trio<Rx>): int {
    25 * Value(p.left) + Bit(p.left.hiIncr) + Bit(p.left.hiDecr) + LanesWork(p.tx, rx)
  }

  // What an event adds to the measure at most: its own share, and a carry into the upper bits of the counter.
  const Worth: nat := 26

  predicate SenderDue(p: Port, rx: Trio<Rx>) {
    || TxBusy(p.tx.one, rx.one) || TxBusy(p.tx.two, rx.two) || TxBusy(p.tx.four, rx.four)
    || Weight(ToSend(p.left, p.tx)) > 0 || p.left.hiIncr || p.left.hiDecr
  }

  predicate ReceiverDue(tx: Trio<Tx>, rx: Trio<Rx>) {
    RxBusy(tx.one, rx.one) || RxBusy(tx.two, rx.two) || RxBusy(tx.four, rx.four)
  }

  // As long as there is work, an edge of one clock or of the other is due.
  lemma SomeoneIsDue(p: Port, rx: Trio<Rx>, hiModulus: nat)
    requires LinkInv(p, rx, hiModulus)
    requires Work(p, rx) > 0
    ensures SenderDue(p, rx) || ReceiverDue(p.tx, rx)
  {
    LaneDue(p.tx.one, rx.one);
    LaneDue(p.tx.two, rx.two);
    LaneDue(p.tx.four, rx.four);
    hide LaneInv, TxBusy, RxBusy, LaneWork;
    assert p.left.lo == p.left.lo % 2 + 2 * (p.left.lo / 2 % 2);
  }

  lemma LaneDue(tx: Tx, rx: Rx)
    requires LaneInv(tx, rx)
    ensures !Ready(tx) || LaneWork(tx, rx) > 0 ==> TxBusy(tx, rx) || RxBusy(tx, rx)
  {
  }

  lemma LanesWorkStep(tx: Trio<Tx>, rx: Trio<Rx>, tx': Trio<Tx>, rx': Trio<Rx>, txEdge: bool, rxEdge: bool,
                      send: Trio<bool>, sample: Trio<bool>, back: Trio<bool>)
    requires LanesInv(tx, rx)
    requires send.one ==> Ready(tx.one)
    requires send.two ==> Ready(tx.two)
    requires send.four ==> Ready(tx.four)
    requires tx' == if txEdge then Tx3Edge(tx, send, back) else tx
    requires rx' == if rxEdge then Rx3Edge(rx, sample) else rx
    requires Sampled3(sample, Toggles(tx), Toggles(tx'))
    requires Sampled3(back, Seen(rx), Seen(rx'))
    ensures LanesWork(tx', rx') <= LanesWork(tx, rx) + (if txEdge then 24 * Weight(send) else 0)
    ensures txEdge && (TxBusy(tx.one, rx.one) || TxBusy(tx.two, rx.two) || TxBusy(tx.four, rx.four)) ==>
              LanesWork(tx', rx') < LanesWork(tx, rx) + 24 * Weight(send)
    ensures rxEdge && ReceiverDue(tx, rx) ==>
              LanesWork(tx', rx') < LanesWork(tx, rx) + (if txEdge then 24 * Weight(send) else 0)
    ensures LanesWork(tx', rx') == LanesWork(tx, rx) && !(txEdge && Weight(send) > 0) ==> tx' == tx && rx' == rx
  {
    hide LaneInv, OneTransition, TxBusy, RxBusy, LaneWork, Ready, TxEdge, RxEdge, Sampled;
    LaneWorkStep(tx.one, rx.one, tx'.one, rx'.one, txEdge, rxEdge, send.one, sample.one, back.one);
    LaneWorkStep(tx.two, rx.two, tx'.two, rx'.two, txEdge, rxEdge, send.two, sample.two, back.two);
    LaneWorkStep(tx.four, rx.four, tx'.four, rx'.four, txEdge, rxEdge, send.four, sample.four, back.four);
  }

  /** An edge adds no more work than its event is worth; an edge of the clock that is due adds less; and an edge that
      adds all of it changes nothing of the toggles, and without an event nothing of the link. */
  lemma WorkStep(p: Port, rx: Trio<Rx>, p': Port, rx': Trio<Rx>, hiModulus: nat, pEdge: bool, rxEdge: bool, event: bool,
                 ownSample: Trio<bool>, sample: Trio<bool>, back: Trio<bool>)
    requires hiModulus > 0
    requires LinkInv(p, rx, hiModulus)
    requires pEdge && event ==> !AtLimit(p, hiModulus)
    requires p' == if pEdge then PortEdge(p, hiModulus, event, ownSample, back) else p
    requires rx' == if rxEdge then Rx3Edge(rx, sample) else rx
    requires Sampled3(sample, Toggles(p.tx), Toggles(p'.tx))
    requires Sampled3(back, Seen(rx), Seen(rx'))
    ensures var added := Worth * Bit(pEdge && event);
            && Work(p', rx') <= Work(p, rx) + added
            && (pEdge && SenderDue(p, rx) ==> Work(p', rx') < Work(p, rx) + added)
            && (rxEdge && ReceiverDue(p.tx, rx) ==> Work(p', rx') < Work(p, rx) + added)
            && (Work(p', rx') == Work(p, rx) + added ==>
                  p'.tx == p.tx && rx' == rx && (!(pEdge && event) ==> p'.left == p.left))
  {
    var send := ToSend(p.left, p.tx);
    LanesWorkStep(p.tx, rx, p'.tx, rx', pEdge, rxEdge, send, sample, back);
    if pEdge {
      LinkStep(p, rx, p', rx', hiModulus, false, pEdge, rxEdge, event, ownSample, sample, back);
    }
    hide LanesInv, LaneInv, LeftInv, LanesWork, ReceiverDue, Outstanding, TxBusy, Weight, Tx3Edge, Rx3Edge, Sampled3,
        AtLimit;
    if pEdge {
      WeightOfFour(send);
    }
  }

  lemma WeightOfFour(send: Trio<bool>)
    ensures Weight(send) >= (if send.four then 4 else 0)
    ensures Weight(send) == 0 ==> !send.one && !send.two && !send.four
  {
  }
}
