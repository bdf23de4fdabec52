/** The toggle handshake over whole runs of the two clocks. */
module ToggleRuns {
  import opened ToggleLane

  // One edge of either clock or of both. want: the sender has something to report;
  // sawNew, backSawNew: how the race with a simultaneous change was decided.
  datatype LaneEvent = LaneEvent(txEdge: bool, rxEdge: bool, want: bool, sawNew: bool, backSawNew: bool)

  predicate Sends(tx: Tx, e: LaneEvent) { e.txEdge && e.want && Ready(tx) }

  function NextTx(tx: Tx, rx: Rx, e: LaneEvent): Tx {
    if e.txEdge then TxEdge(tx, Sends(tx, e), if e.backSawNew && e.rxEdge then rx.sync2 else rx.sync3) else tx
  }

  function NextRx(tx: Tx, rx: Rx, e: LaneEvent): Rx {
    if e.rxEdge then RxEdge(rx, if e.sawNew && e.txEdge then tx.toggle != Sends(tx, e) else tx.toggle) else rx
  }

  // How often the toggle is flipped in a run.
  function Flips(tx: Tx, rx: Rx, events: seq<LaneEvent>): nat
    decreases |events|
  {
    if events == [] then 0
    else Bit(Sends(tx, events[0])) + Flips(NextTx(tx, rx, events[0]), NextRx(tx, rx, events[0]), events[1..])
  }

  // How many updates the receiver consumes in a run.
  function Pulses(tx: Tx, rx: Rx, pipeline: bool, events: seq<LaneEvent>): nat
    decreases |events|
  {
    if events == [] then 0
    else Bit(events[0].rxEdge && Pulse(rx, pipeline))
         + Pulses(NextTx(tx, rx, events[0]), NextRx(tx, rx, events[0]), pipeline, events[1..])
  }

  function EndTx(tx: Tx, rx: Rx, events: seq<LaneEvent>): Tx
    decreases |events|
  {
    if events == [] then tx else EndTx(NextTx(tx, rx, events[0]), NextRx(tx, rx, events[0]), events[1..])
  }

  function EndRx(tx: Tx, rx: Rx, events: seq<LaneEvent>): Rx
    decreases |events|
  {
    if events == [] then rx else EndRx(NextTx(tx, rx, events[0]), NextRx(tx, rx, events[0]), events[1..])
  }

  lemma {:induction false} RunConserves(tx: Tx, rx: Rx, pipeline: bool, events: seq<LaneEvent>)
    requires LaneInv(tx, rx)
    ensures LaneInv(EndTx(tx, rx, events), EndRx(tx, rx, events))
    ensures Pulses(tx, rx, pipeline, events) + InFlight(EndTx(tx, rx, events), EndRx(tx, rx, events), pipeline)
         == Flips(tx, rx, events) + InFlight(tx, rx, pipeline)
    decreases |events|
  {
    if events != [] {
      var e := events[0];
      var tx', rx' := NextTx(tx, rx, e), NextRx(tx, rx, e);
      LaneStep(tx, rx, tx', rx', pipeline, e.txEdge, e.rxEdge, Sends(tx, e),
               if e.sawNew && e.txEdge then tx.toggle != Sends(tx, e) else tx.toggle,
               if e.backSawNew && e.rxEdge then rx.sync2 else rx.sync3);
      hide LaneInv, InFlight, Sends, Pulse;
      RunConserves(tx', rx', pipeline, events[1..]);
    }
  }

  /** Exactly once: from a cleared lane, at whatever rates the clocks run and however crossings are
      decided, the receiver has consumed one update per flip, but for at most three still on their
      way; and all of them as soon as every register of the lane agrees again. */
  lemma ExactlyOnce(pipeline: bool, events: seq<LaneEvent>)
    ensures var tx, rx := EndTx(TX_CLEAR, RX_CLEAR, events), EndRx(TX_CLEAR, RX_CLEAR, events);
            var flips, pulses := Flips(TX_CLEAR, RX_CLEAR, events), Pulses(TX_CLEAR, RX_CLEAR, pipeline, events);
            && OneTransition(tx, rx)
            && pulses <= flips <= pulses + 3
            && (tx.toggle == rx.sync3 == rx.prev && !rx.piped ==> pulses == flips)
  {
    RunConserves(TX_CLEAR, RX_CLEAR, pipeline, events);
  }
}
