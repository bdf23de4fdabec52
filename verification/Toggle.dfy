/** One toggle signal of the dual-clock FIFO, from the register that is flipped, through the
    three synchroniser stages of the receiving clock, and back through the three read-back
    stages of the sending clock. */
module ToggleLane {

  function Bit(b: bool): (n: nat)
    ensures n <= 1
  {
    if b then 1 else 0
  }

  // The registers of one toggle on the sending clock: the toggle and the read-back synchroniser.
  datatype Tx = Tx(toggle: bool, back1: bool, back2: bool, back3: bool)

  // The registers of one toggle on the receiving clock: the synchroniser, the previous value
  // that turns a flip into a pulse, and the optional pipeline register behind it.
  datatype Rx = Rx(sync1: bool, sync2: bool, sync3: bool, prev: bool, piped: bool)

  const TX_CLEAR := Tx(false, false, false, false)
  const RX_CLEAR := Rx(false, false, false, false, false)

  // The sender may flip the toggle again only when its last flip has been read back.
  predicate Ready(tx: Tx) {
    tx.toggle == tx.back3
  }

  // The update as the receiver consumes it.
  predicate Pulse(rx: Rx, pipeline: bool) {
    if pipeline then rx.piped else rx.sync3 != rx.prev
  }

  function TxEdge(tx: Tx, send: bool, backSample: bool): Tx {
    Tx(tx.toggle != send, backSample, tx.back1, tx.back2)
  }

  function RxEdge(rx: Rx, sample: bool): Rx {
    Rx(sample, rx.sync1, rx.sync2, rx.sync3, rx.sync3 != rx.prev)
  }

  // A flop that samples a bit while the bit changes may see either value.
  predicate Sampled(seen: bool, before: bool, after: bool) {
    seen == before || seen == after
  }

  // Along toggle, sync1..3, back1..3 the value changes at most once.
  predicate OneTransition(tx: Tx, rx: Rx) {
    Bit(tx.toggle != rx.sync1) + Bit(rx.sync1 != rx.sync2) + Bit(rx.sync2 != rx.sync3)
    + Bit(rx.sync3 != tx.back1) + Bit(tx.back1 != tx.back2) + Bit(tx.back2 != tx.back3) <= 1
  }

  // Besides, a flip never reaches the last stage before the previous one has become a pulse.
  predicate LaneInv(tx: Tx, rx: Rx) {
    && OneTransition(tx, rx)
    && (rx.sync1 != rx.sync2 || rx.sync2 != rx.sync3 ==> rx.prev == rx.sync3)
  }

  // Flips that the receiver has not consumed yet.
  function InFlight(tx: Tx, rx: Rx, pipeline: bool): (n: nat) {
    Bit(tx.toggle != rx.sync3) + Bit(rx.sync3 != rx.prev) + Bit(pipeline && rx.piped)
  }

  // One clock edge on either or both sides. Exactly one pulse comes out for each flip put in.
  lemma LaneStep(tx: Tx, rx: Rx, tx': Tx, rx': Rx, pipeline: bool, txEdge: bool, rxEdge: bool,
                 send: bool, sample: bool, backSample: bool)
    requires LaneInv(tx, rx)
    requires send ==> Ready(tx)
    requires tx' == if txEdge then TxEdge(tx, send, backSample) else tx
    requires rx' == if rxEdge then RxEdge(rx, sample) else rx
    requires Sampled(sample, tx.toggle, tx'.toggle)
    requires Sampled(backSample, rx.sync3, rx'.sync3)
    ensures LaneInv(tx', rx')
    ensures InFlight(tx', rx', pipeline) + Bit(rxEdge && Pulse(rx, pipeline))
         == InFlight(tx, rx, pipeline) + Bit(txEdge && send)
  {
  }
}
