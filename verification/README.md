# Verification of the dual-clock FIFO and of the host driver's protocols

This project models, in Dafny, the parts of the oneAPI ASP in which several clocks, threads or devices have to agree
with each other, and proves what they agree on.

**The dual-clock FIFO** (`acl_dcfifo.sv`). The model has every flop of the circuit: both domains' occupancy
counters, the split leftover counters whose upper bits lag by one clock, the three toggles of each direction with
their synchronisers and read-back synchronisers, the optional pipeline registers, the tessellated address counters,
the prefetch, the hidden address register of an M20K, the RAM and the whole reset synchroniser. An event is an edge
of one clock, or of both at once, or the asynchronous reset going low or high. When both clocks have an edge, each
crossing bit is seen before or after its change, decided for each bit on its own. All parameters are symbolic.
`FifoDevice` is the circuit as an object with these registers, updated in place; `Fifo` is what an edge makes of them
as a function; the proofs about runs are about that function.

- `ToggleLane`, `ToggleRuns`: one toggle signal; every flip becomes exactly one update.
- `Port`, `TokenRing`: what one domain owns of the two links, and the two domains as a ring in which tokens are
  passed. That no leftover counter overflows rests on the read-back of a toggle overtaking the tokens it stands for,
  compared stage by stage (`TokenRing.ReadBackLeads`).
- `Address`, `ResetSync`, `ResetTiming`, `ResetStages`: the address counter and the reset synchroniser by themselves.
- `FifoInvariant`, `FifoRunning`, `FifoWords`, `FifoReset`: the invariant, in reset and out of it, and that each event
  keeps it. `FifoSafety`, `FifoGuarantees`: what follows for all runs. `FifoStart`, `LinkProgress`, `FifoProgress`,
  `FifoTraffic`, `FifoDrain`: that the FIFO comes out of reset, that no word and no free place gets stuck, with traffic
  or without, and that all is delivered. `FifoCrossings`: that every way the crossings may fall is among the runs;
  `FifoRegisters`: what single options and registers are for.

A run starts with arbitrary contents of all registers and of the RAM, followed by an assertion of the reset; resets may
come again at any time.

**The host driver.** `DmaTransfer` is one transfer of the DMA engine (pin or bounce, split into descriptors, copy
back), `DmaHandshake` the three registers and the completion word shared by many threads, `DmaQueue` the work queue
with its mutex and condition variable; `DmaCalls` and `DmaQueueCalls` tie both to the calls that were made.
`BlockCopy` and `Mmio` are the block movers over byte memory. `PinRegistry` and `PinDriver` are the maps of devices
and of pinned host memory. `InterruptWorker` is the interrupt thread, `InterruptSetCalls` ties it to the set calls, and
`InterruptShutdown` is its end. `BufferSearch` is the search of the memory diagnostic for the largest buffer.

## What the code does not keep

- The comment on the reset synchroniser promises that all logic of a clock leaves reset on the same cycle. Every
  release of the asynchronously cleared reset does come with the synchronous one. The converse fails: a synchronous
  reset goes high alone exactly when the asynchronous reset was asserted since the last edge of its clock
  (`ResetTiming.SynchronousReleaseAlone`; `ResetTiming.AloneHappens` is such a run). It does no harm: the FIFO's
  invariant holds on these runs, too.
- `do_dma` leaves the pin of the caller's memory behind exactly if a descriptor before the last one fails
  (`DmaTransfer.Engine.DoDma`).
- `copy_block` is a memmove, whatever the memory holds, if and only if the destination does not start inside the source
  behind its first byte while the size exceeds the bounce buffer (`BlockCopy.MemmoveExactlyWhenSafe`); and it reports
  success after a failed transfer (`BlockCopy.Device.CopyBlock`).
- An allocation that fails while pinning always leaves its range mapped, and leaves pins that the registry does not
  list exactly if some device had been pinned (`PinRegistry.GivingUpNeverKeeps`).
- A free that fails leaves an entry whose handles have been moved out (`PinRegistry.GivingUpAFreeNeverKeeps`). The next
  free of that address, and every program call on any open device, dereferences them (`PinDriver.Driver.FreeMemory`,
  `PinDriver.Driver.Program`).
- A program call reports success whether or not everything could be pinned again, and leaves the registry right exactly
  if it could; one that fails leaves it right exactly if nothing is allocated for the device
  (`PinDriver.Driver.Program`).
- The interrupt worker may call the handler once more after it has been told to stop, exactly if at that moment it
  waits, wakes up, waits for the mutex or has just found a handler (`InterruptShutdown.LateCallExactlyWhen`).
- The search for the largest buffer does not end if not even one byte can be allocated, or the device reports no memory
  (`BufferSearch.EndsExactlyWhen`).

## Model

A row about whole runs cites all the logic that takes part.

| member | source | states |
|---|---|---|
| ToggleLane.LaneStep | common/ase/hack_ip_files/acl_dcfifo.sv:272-319 | Over an edge of either clock or both, whichever way the crossings fall, a toggle with its six stages keeps at most one transition, and pulses plus flips in flight change by exactly the flips sent |
| ToggleRuns.RunConserves | common/ase/hack_ip_files/acl_dcfifo.sv:742-765 | Over any run updates consumed plus flips in flight at the end equal flips sent plus flips in flight at the start |
| ToggleRuns.ExactlyOnce | common/ase/hack_ip_files/acl_dcfifo.sv:272-319 | From a cleared lane, at any clock rates, each flip yields one update: at most three are under way, and none when all stages agree |
| FifoGuarantees.LinkIsBacked | common/ase/hack_ip_files/acl_dcfifo.sv:246-270 | A port that meets the link invariant never sends more than is outstanding, and a +4 only if four events are, although the upper bits may be one clock old |
| Port.HiStep | common/ase/hack_ip_files/acl_dcfifo.sv:262-264 | The upper bits of a leftover counter never leave their range upwards or downwards |
| Port.LeftStep | common/ase/hack_ip_files/acl_dcfifo.sv:255-270 | What a leftover counter stands for, its late carry and borrow included, changes by the new event less what is sent |
| Port.LanesFlow | common/ase/hack_ip_files/acl_dcfifo.sv:272-319 | The three toggles together conserve the events they carry, weighted 1, 2 and 4 |
| Port.LinkStep | common/ase/hack_ip_files/acl_dcfifo.sv:238-319 | Over every edge, events outstanding from a domain (counter and toggles) grow by its new event and shrink by the update the other domain consumes |
| TokenRing.NoOverflow | common/ase/hack_ip_files/acl_dcfifo.sv:255-270 | An agent that still has a token never has its leftover counter full while the +1 toggle is busy, so the counter never wraps |
| TokenRing.LeadStep | common/ase/hack_ip_files/acl_dcfifo.sv:279-290 | The read-back of the +1 toggle stays ahead of the tokens it stands for, stage by stage, over every edge of either clock |
| TokenRing.RingStep | common/ase/hack_ip_files/acl_dcfifo.sv:215-425 | Every edge of either clock or both keeps the number of tokens, both links, both read-back leads and both buffers non-negative |
| Parameters.SizeFacts | common/ase/hack_ip_files/acl_dcfifo.sv:120-121 | For every DEPTH at least 1 the RAM has at least 8 words, at least DEPTH of them, and a number divisible by 4 |
| Parameters.RamChoice | common/ase/hack_ip_files/acl_dcfifo.sv:122-122 | The RAM is the one asked for, or, if the choice is left, an MLAB exactly for up to 32 words |
| Parameters.CeilLog2 | common/ase/hack_ip_files/acl_dcfifo.sv:120-120 | The address width is the least one whose power of two reaches DEPTH |
| Address.CounterStep | common/ase/hack_ip_files/acl_dcfifo.sv:709-737 | After n increments the address is the pair ceil(n/L) mod H, n mod L |
| Address.PlacesDiffer | common/ase/hack_ip_files/acl_dcfifo.sv:721-735 | Two steps less than a full period apart never have the same address |
| Address.EveryPlaceIsVisited | common/ase/hack_ip_files/acl_dcfifo.sv:721-735 | Every address is visited in every period, at the given step |
| Address.PlaceInRange | common/ase/hack_ip_files/acl_dcfifo.sv:735-735 | The address counter never points outside the RAM |
| ResetSync.AssertEstablishes | common/ase/hack_ip_files/acl_dcfifo.sv:785-855 | An assertion, with anything in the chain before, clears it through all domains without a clock |
| ResetSync.ChainStep | common/ase/hack_ip_files/acl_dcfifo.sv:785-855 | The chain fills from its head, and pipelines with and without clear agree once the release has reached them |
| ResetTiming.ReleaseProtocol | common/ase/hack_ip_files/acl_dcfifo.sv:769-857 | On any run after an assertion: the write side never runs without the read side, the two resets of a clock are released by the same edge, and after at least three edges in reset |
| ResetTiming.SynchronousReleaseAlone | common/ase/hack_ip_files/acl_dcfifo.sv:814-855 | On every run and for either clock: a synchronous reset that goes high does so without the asynchronously cleared one if and only if the asynchronous reset was asserted since the last edge of that clock |
| ResetTiming.PipesRun | common/ase/hack_ip_files/acl_dcfifo.sv:814-853 | The two reset pipelines of a clock agree unless the reset was asserted since its last edge, and then the cleared one is low |
| ResetTiming.AloneHappens | common/ase/hack_ip_files/acl_dcfifo.sv:814-826 | A run on which the synchronous reset goes high alone |
| ResetTiming.TurnFills | common/ase/hack_ip_files/acl_dcfifo.sv:785-855 | While the chain is not full, the first edge of the clock whose turn it is fills a stage |
| ResetTiming.ResetEnds | common/ase/hack_ip_files/acl_dcfifo.sv:785-855 | Once released, both sides are out of reset after at most thirteen rounds of both clocks |
| ResetStages.ReleasedExactlyWhen | common/ase/hack_ip_files/acl_dcfifo.sv:785-855 | On every run, to the edge, when each side is out of reset: three edges of wr_clock, five of rd_clock, five of wr_clock, where a simultaneous edge may count for the next turn |
| ResetStages.FilledRun | common/ase/hack_ip_files/acl_dcfifo.sv:785-855 | Between them the chain always has exactly that many of its stages high, in order |
| ResetStages.ThreeFiveFive | common/ase/hack_ip_files/acl_dcfifo.sv:785-855 | With one clock running at a time, 3, 5 and 5 edges, and in no place one less |
| FifoRunning.FlagsExact | common/ase/hack_ip_files/acl_dcfifo.sv:227-361 | Each test of a most significant bit on a modular counter holds exactly when the count it stands for says so |
| FifoRunning.WriterEdge | common/ase/hack_ip_files/acl_dcfifo.sv:222-228 | An edge of the write clock moves all its occupancy counters and its address as the ring moves its free places, without wrap-around |
| FifoRunning.ReaderEdge | common/ase/hack_ip_files/acl_dcfifo.sv:335-361 | The same for the read clock: the negated available count, the prefetch, the late almost-empty count and both read addresses |
| FifoRunning.ReaderAddr | common/ase/hack_ip_files/acl_dcfifo.sv:593-598 | The hardened M20K address is always one step behind the address register, from the first edge out of reset |
| FifoRunning.RunningRing | common/ase/hack_ip_files/acl_dcfifo.sv:215-425 | One edge of the circuit out of reset is one step of the ring, with all counters following |
| FifoWords.WriteIsHarmless | common/ase/hack_ip_files/acl_dcfifo.sv:222-226 | No write lands on a RAM slot whose word the prefetch has not taken |
| FifoWords.FeedLoadsNext | common/ase/hack_ip_files/acl_dcfifo.sv:347-361 | Whenever the prefetch loads, either kind of RAM puts out the next accepted word |
| FifoWords.RunningStep | common/ase/hack_ip_files/acl_dcfifo.sv:215-600 | Every edge out of reset keeps the whole invariant, words included |
| FifoReset.AssertEstablishes | common/ase/hack_ip_files/acl_dcfifo.sv:272-290 | An assertion of the reset establishes the invariant from any contents of the registers and the RAM |
| FifoReset.ReadFlushStep | common/ase/hack_ip_files/acl_dcfifo.sv:814-826 | When the read side leaves reset all its registers, also those without reset, hold their start values |
| FifoReset.WriteFlushStep | common/ase/hack_ip_files/acl_dcfifo.sv:828-855 | The same for the write side |
| FifoReset.StartIsRunning | common/ase/hack_ip_files/acl_dcfifo.sv:780-783 | Both sides at their start values are a running FIFO with nothing in it |
| FifoSafety.InvStep | common/ase/hack_ip_files/acl_dcfifo.sv:86-705 | Every event, edges in reset and out of it and resets at any time, keeps the invariant |
| FifoSafety.RunKeepsInv | common/ase/hack_ip_files/acl_dcfifo.sv:86-705 | So does every run of events |
| FifoSafety.DeliversInOrder | common/ase/hack_ip_files/acl_dcfifo.sv:86-705 | On every run the words delivered are a prefix of the words accepted, the word on offer is the next one, and at most DEPTH words are inside |
| FifoSafety.InvMeans | common/ase/hack_ip_files/acl_dcfifo.sv:120-228 | Write-side used words lie between FULL_SLACK and 2^ADDR, and occupancy is at most that count less FULL_SLACK, at most DEPTH |
| FifoGuarantees.FlagsAreExact | common/ase/hack_ip_files/acl_dcfifo.sv:606-702 | On every run full, almost full, empty and almost empty agree with the unbounded counters of the simulation-only checks, and read count, occupancy, write count are in that order |
| FifoGuarantees.EveryWordAccounted | common/ase/hack_ip_files/acl_dcfifo.sv:246-430 | On every run: accepted words equal delivered plus prefetched plus available plus in flight plus leftover, and the same for places on the way back; both leftover counters stay in ADDR bits; neither side sends what is not outstanding, in particular no +4 |
| FifoGuarantees.RamKindDoesNotShow | common/ase/hack_ip_files/acl_dcfifo.sv:440-600 | MLAB and M20K builds, with or without the hold option, show the same flags and deliver the same words on the same stimulus |
| FifoStart.RunForReset | common/ase/hack_ip_files/acl_dcfifo.sv:769-857 | The reset synchroniser inside the FIFO runs as it does by itself |
| FifoStart.ComesAlive | common/ase/hack_ip_files/acl_dcfifo.sv:86-857 | From any contents, after a reset and anything that follows, thirteen rounds after the release the whole FIFO runs and the invariant holds |
| FifoCrossings.CrossingsExactly | common/ase/hack_ip_files/acl_dcfifo.sv:741-765 | With edges of both clocks at once, the twelve bits captured from the other side can be any mix of values from before and after the edge, each bit on its own, and nothing else |
| FifoCrossings.AloneAsItIs | common/ase/hack_ip_files/acl_dcfifo.sv:741-765 | An edge of one clock alone captures the other side as it is |
| FifoCrossings.ResetCrossingsExactly | common/ase/hack_ip_files/acl_dcfifo.sv:799-842 | At an edge that releases the reset of one clock to the other, the first flop behind may be free already or not, on each crossing on its own, and nothing else is possible |
| FifoCrossings.RamOutExactly | common/ase/hack_ip_files/acl_dcfifo.sv:454-560 | A read of a slot never written or being written may put out any word, any other read puts out what is stored |
| FifoRegisters.HoldsLastWord | common/ase/hack_ip_files/acl_dcfifo.sv:92-92 | With HOLD_READ_DATA_WHEN_EMPTY, on every run, the output keeps the last word delivered until the next is on offer |
| FifoRegisters.PipelineDelays | common/ase/hack_ip_files/acl_dcfifo.sv:308-319 | PIPELINE_AFTER_CLOCK_CROSS delays an update by one edge of the receiving clock and does nothing else |
| FifoRegisters.FlipsExactly | common/ase/hack_ip_files/acl_dcfifo.sv:266-277 | A toggle flips exactly if the counter has a bit for it and its last flip has been read back; with all three read back the low bits are sent at once |
| FifoRegisters.AssertClearsExactly | common/ase/hack_ip_files/acl_dcfifo.sv:272-306 | The asynchronous reset clears toggles, synchronisers and the read side's previous values; every other register keeps its value |
| FifoRegisters.ChainClearsExactly | common/ase/hack_ip_files/acl_dcfifo.sv:785-855 | In the reset synchroniser it clears all but the two flops per clock without a clear |
| FifoRegisters.WithoutReset | common/ase/hack_ip_files/acl_dcfifo.sv:255-265 | The delayed carry and borrow and the write side's previous values have no reset: an edge in reset computes them as ever |
| FifoRegisters.NothingAsked | common/ase/hack_ip_files/acl_dcfifo.sv:89-89 | Without NEVER_OVERFLOWS nothing is asked of the client |
| FifoRegisters.PromiseIsNeeded | common/ase/hack_ip_files/acl_dcfifo.sv:222-228 | With it, a write while full with no place coming back is made all the same, the write side counts DEPTH + 1, and the invariant is lost |
| LinkProgress.SomeoneIsDue | common/ase/hack_ip_files/acl_dcfifo.sv:266-306 | As long as a link has work, an edge of one of its clocks has something to do |
| LinkProgress.WorkStep | common/ase/hack_ip_files/acl_dcfifo.sv:255-319 | An edge adds at most what its event is worth to the measure; an edge of the clock that is due adds less |
| FifoProgress.RoundHelps | common/ase/hack_ip_files/acl_dcfifo.sv:238-434 | With any traffic, a round of both clocks at which the link has work removes more than the events of the round add |
| FifoProgress.RoundsFinish | common/ase/hack_ip_files/acl_dcfifo.sv:238-434 | Each round of both clocks without new events removes work until none is left, in either direction |
| FifoProgress.WordsArrive | common/ase/hack_ip_files/acl_dcfifo.sv:238-371 | If nothing more is written, after 25*DEPTH+84 rounds the reader counts every word inside, and empty means all are delivered |
| FifoProgress.PlacesReturn | common/ase/hack_ip_files/acl_dcfifo.sv:373-434 | If nothing more is read, after 25*DEPTH+83 rounds the writer counts exactly the words inside, and full means DEPTH words |
| FifoTraffic.LinkNeverStalls | common/ase/hack_ip_files/acl_dcfifo.sv:238-434 | With any traffic in both directions, over rounds at which a link is never idle it hands over one event for every 26 rounds, up to a constant in DEPTH |
| FifoTraffic.BusyRoundsMove | common/ase/hack_ip_files/acl_dcfifo.sv:238-434 | Such rounds lower the measure by one each, but for what entered |
| FifoTraffic.HandedOverMeans | common/ase/hack_ip_files/acl_dcfifo.sv:224-345 | What was handed over is what was delivered and can be, on the way to the reader, and the room the writer counts, on the way back |
| FifoDrain.RoundsDeliver | common/ase/hack_ip_files/acl_dcfifo.sv:335-361 | Once the words have arrived, each round in which the reader acknowledges delivers one, or all are delivered |
| FifoDrain.EverythingIsDelivered | common/ase/hack_ip_files/acl_dcfifo.sv:238-371 | If nothing more is written and the reader then acknowledges for DEPTH rounds, it has got exactly what was accepted |
| FifoDrain.RoundsExist | common/ase/hack_ip_files/acl_dcfifo.sv:86-112 | Rounds as the progress theorems ask for exist from every state, as many as one likes |
| FifoDevice.DualClockFifo.constructor | common/ase/hack_ip_files/acl_dcfifo.sv:86-112 | Power-up with any register contents and an asserted reset gives a valid device without words |
| FifoDevice.DualClockFifo.ClearAsync | common/ase/hack_ip_files/acl_dcfifo.sv:272-290 | The asynchronous clears reach toggles, synchronisers and the read side's previous value, and nothing else |
| FifoDevice.DualClockFifo.AssertReset | common/ase/hack_ip_files/acl_dcfifo.sv:272-290 | The reset, at any time, makes the device valid and empty |
| FifoDevice.DualClockFifo.ReleaseReset | common/ase/hack_ip_files/acl_dcfifo.sv:785-797 | The release by itself changes no word and keeps the device valid |
| FifoDevice.DualClockFifo.OnWrClock | common/ase/hack_ip_files/acl_dcfifo.sv:222-290 | The registers of wr_clock, updated in place, end up as the transition function says |
| FifoDevice.DualClockFifo.OnRdClock | common/ase/hack_ip_files/acl_dcfifo.sv:301-405 | The registers of rd_clock, updated in place, end up as the transition function says |
| FifoDevice.DualClockFifo.Clocked | common/ase/hack_ip_files/acl_dcfifo.sv:215-600 | An edge of one clock or of both updates the device as the transition function says, each domain from the values before the edge |
| FifoDevice.DualClockFifo.Tick | common/ase/hack_ip_files/acl_dcfifo.sv:86-112 | A write is accepted iff requested and not full, a read delivered iff acknowledged and not empty; the delivered word is the oldest one not delivered; capacity is kept |
| DmaTransfer.PlanTiles | common/source/host/mmd_dma.cpp:464-481 | The descriptors tile source and destination in order, without gap, each of the limit but the last, none empty; a limit of 0 gives one |
| DmaTransfer.Engine.PlanReaches | common/source/host/mmd_dma.cpp:418-481 | Every planned descriptor stays inside the pinned range of the caller, or inside the driver's buffer if the transfer is bounced |
| DmaTransfer.Engine.SendAll | common/source/host/mmd_dma.cpp:464-481 | The splitting loop issues the plan up to and including the first failure; what arrives is the payload up to the failed descriptor and whatever that one left, and nothing else changes |
| DmaTransfer.Engine.BouncedOut | common/source/host/mmd_dma.cpp:430-481 | Through the driver's buffer the device gets the caller's bytes, as far as they were moved |
| DmaTransfer.Engine.BouncedIn | common/source/host/mmd_dma.cpp:464-489 | Through the driver's buffer the caller gets what arrived, also after a failed last descriptor; after an earlier failure only the buffer has changed |
| DmaTransfer.Engine.DoDma | common/source/host/mmd_dma.cpp:395-502 | Success iff all descriptors succeed, and then one memcpy; after a failure, exactly what is where, in both directions and with or without the buffer; every descriptor issued names host memory inside one range pinned for it; the pin is released unless a descriptor before the last fails |
| DmaHandshake.RunKeepsInv | common/source/host/mmd_dma.cpp:267-383 | On every interleaving the state of the lock holder determines registers, hardware and completion word |
| DmaHandshake.OneCallAtATime | common/source/host/mmd_dma.cpp:267-383 | The hardware takes the three values of one call each time, in lock order, at most one descriptor outstanding, and calls return in that order after completion |
| DmaHandshake.ReturnsOnOwnCompletion | common/source/host/mmd_dma.cpp:365-383 | A call returns only on the completion of its own descriptor, with the word clear for the next |
| DmaCalls.NothingLostOrMadeUp | common/source/host/mmd_dma.cpp:267-300 | On every run, of each descriptor as many were called for, told from the calls alone, as have got the lock or wait for it |
| DmaCalls.EveryCallReturns | common/source/host/mmd_dma.cpp:267-383 | Without new calls threads and hardware take a bounded number of steps in any order, and then every call has returned and the hardware has taken exactly the descriptors called for |
| DmaCalls.RunToRest | common/source/host/mmd_dma.cpp:267-383 | From every reachable state such a run to the end exists |
| DmaCalls.SomeoneCanGo | common/source/host/mmd_dma.cpp:267-383 | As long as a call is under way some thread or the hardware can take a step |
| DmaQueue.DoneOnceInOrder | common/source/host/mmd_dma.cpp:170-219 | Each transfer is done once and reported once, in the order enqueued and with its status; the worker never sleeps on a non-empty queue without a notify to come |
| DmaQueue.WakeStep | common/source/host/mmd_dma.cpp:172-178 | No step leaves the worker asleep on a non-empty queue without a notify to come |
| DmaQueue.NeverStuck | common/source/host/mmd_dma.cpp:170-219 | As long as anything is left, some thread can take a step, without new callers or spurious wake-ups |
| DmaQueue.BusyRunsEnd | common/source/host/mmd_dma.cpp:170-219 | Every step a thread takes on its own lowers a measure of what is queued, in hand and under way |
| DmaQueue.EverythingGetsDone | common/source/host/mmd_dma.cpp:170-219 | Without new callers the threads stop after a bounded number of steps in any order, and then everything enqueued has been reported |
| DmaQueue.RunToRest | common/source/host/mmd_dma.cpp:170-219 | After every run such a run to the end exists |
| DmaQueue.MemoryAsEnqueued | common/source/host/mmd_dma.cpp:170-219 | If the transfers succeed, host and device memory are at all times as the transfers done so far leave them, one after the other in the order enqueued, and when nothing is left to do as all of them leave them |
| DmaQueueCalls.NothingLostOrMadeUp | common/source/host/mmd_dma.cpp:197-208 | On every run, of each item as many were asked for, told from the calls alone, as are enqueued or still in the hands of a caller about to push |
| DmaQueueCalls.AllAskedIsReported | common/source/host/mmd_dma.cpp:170-219 | When the threads stop, the items reported are exactly the items asked for |
| DmaQueueCalls.SpuriousWakes | common/source/host/mmd_dma.cpp:173-178 | A sleeping worker may wake without cause, and then takes the mutex and looks again |
| BlockCopy.MemmoveExactlyWhenSafe | common/source/host/mmd_device.cpp:1091-1138 | The chunked copy equals a memmove for all memory contents iff dst <= src, or the ranges are disjoint that way, or one chunk suffices |
| BlockCopy.Arrives | common/source/host/mmd_device.cpp:1102-1121 | A byte whose source no earlier chunk has overwritten arrives |
| BlockCopy.Frame | common/source/host/mmd_device.cpp:1102-1121 | Bytes outside the destination do not change |
| BlockCopy.UnsafeLoses | common/source/host/mmd_device.cpp:1102-1121 | In each unsafe case a memory is given on which the copy differs from a memmove |
| BlockCopy.Device.CopyChunks | common/source/host/mmd_device.cpp:1099-1121 | The loop makes the chunked copy iff every read and write of it succeeds; at the first failure the chunks before it are copied, and its own place is untouched if the read failed |
| BlockCopy.ChunkAtEnd | common/source/host/mmd_device.cpp:1102-1121 | The copy grows by one chunk at the end, read from the memory that the chunks before it left |
| BlockCopy.Device.CopyBlock | common/source/host/mmd_device.cpp:1091-1138 | Status 0 and one report of 0, also after a failure; -1 and no change for another interface |
| Mmio.AccessesTile | common/source/host/mmd_device.cpp:1225-1259 | The accesses follow each other without gap from the address to the next multiple of four of the length, in words of 8 and 4 |
| Mmio.AlignedExactlyWhen | common/source/host/mmd_device.cpp:1225-1259 | All accesses are naturally aligned iff the start is aligned to 8, or to 4 for blocks shorter than 8 |
| Mmio.WriteFootprint | common/source/host/mmd_device.cpp:1242-1259 | A write leaves the bytes, zero padding up to the next multiple of four, and all else as it was |
| Mmio.SucceedExactlyWhen | common/source/host/mmd_device.cpp:1143-1262 | Read and write succeed iff the registers exist up to the padding and every access works |
| Mmio.CoveredInRange | common/source/host/mmd_device.cpp:1143-1262 | Whatever the accesses before the first failure moved lies within the registers |
| Mmio.RoundTrip | common/source/host/mmd_device.cpp:1143-1262 | For every length, a read after a write gives the bytes written, whatever the buffer held, with the same accesses |
| Mmio.Registers.WriteMmio | common/source/host/mmd_device.cpp:1211-1262 | The two loops have the effect, status and accesses of `Write`: on failure exactly the bytes before the failing access are there |
| Mmio.Registers.ReadMmio | common/source/host/mmd_device.cpp:1143-1205 | The two loops and the last part of a word have the effect, status and accesses of `Read`; registers do not change |
| PinRegistry.PinsAgree | common/source/host/mmd.cpp:1496-1664 | After every run of successful open, alloc, free, program and close calls each device has pinned exactly what the registry lists for its handle, every mapped range has its entry, and the handle maps are inverse |
| PinRegistry.PinsApart | common/source/host/mmd.cpp:1576-1592 | What a device has pinned never overlaps |
| PinRegistry.OpenKeeps | common/source/host/mmd.cpp:148-205 | A new device keeps the registry right |
| PinRegistry.OpenedAdds | common/source/host/mmd.cpp:172-175 | Opening adds one device without pins, under its identifier and its handle, and leaves all other devices, allocations and mappings as they are |
| PinRegistry.ClosedRemoves | common/source/host/mmd.cpp:264-275 | Closing removes one device from both maps and leaves all else as it is |
| PinRegistry.AllocatedAdds | common/source/host/mmd.cpp:1576-1594 | An allocation adds its entry, its mapping and its pins, entry by entry, and changes nothing else |
| PinRegistry.GivenUpAdds | common/source/host/mmd.cpp:1576-1592 | One that is given up adds its mapping and the pins so far |
| PinRegistry.FreedRemoves | common/source/host/mmd.cpp:1633-1658 | A free removes entry, mapping and pins of one range and changes nothing else |
| PinRegistry.HalfFreedRemoves | common/source/host/mmd.cpp:1633-1655 | One that is given up removes the pins so far and the handles of the entry |
| PinRegistry.ProgrammingKeepsTheRest | common/source/host/mmd.cpp:632-707 | Unpinning, reconnecting and repinning a device changes its pins only |
| PinRegistry.AllocKeeps | common/source/host/mmd.cpp:1496-1602 | A successful allocation keeps the registry right |
| PinRegistry.FreeKeeps | common/source/host/mmd.cpp:1611-1664 | A successful free keeps the registry right |
| PinRegistry.FreeUndoesAlloc | common/source/host/mmd.cpp:1496-1664 | Freeing an allocation gives back the maps and pins from before it |
| PinRegistry.CallKeeps | common/source/host/mmd.cpp:1496-1664 | Every successful call keeps the registry right, and a program call gives back the very same state |
| PinRegistry.CallsKeep | common/source/host/mmd.cpp:1496-1664 | So does every run of successful calls from a right state |
| PinRegistry.CloseKeepsExactlyWhen | common/source/host/mmd.cpp:264-285 | Closing keeps the registry right iff nothing is allocated for the device |
| PinRegistry.GivingUpNeverKeeps | common/source/host/mmd.cpp:1576-1592 | An allocation that fails while pinning never keeps the registry right, as its range stays mapped; the pins still agree with the registry iff no device had pinned it |
| PinRegistry.GivingUpAFreeNeverKeeps | common/source/host/mmd.cpp:1630-1658 | A free that fails midway never does, and leaves an entry without handles |
| PinRegistry.FailedProgramKeepsExactlyWhen | common/source/host/mmd.cpp:829-868 | A program call that fails keeps the registry right iff nothing is allocated for the device |
| PinDriver.AlignmentMeans | common/source/host/mmd.cpp:1450-1451 | The alignment test accepts 0 and the powers of two up to 2M |
| PinDriver.RoundedMeans | common/source/host/mmd.cpp:1525-1535 | The mapped size is the least multiple of the page size that has room, or 0 where 64 bits wrap |
| PinDriver.Driver.Open | common/source/host/mmd.cpp:1341-1384 | A known device keeps its handle, a new one gets the next and starts without pins; every other device, allocation and mapping stays; a device that is not ready stays in the maps; the registry stays right if the handle is new |
| PinDriver.Driver.Close | common/source/host/mmd.cpp:264-285 | The device leaves both maps with all its pins; an unknown handle changes nothing; the registry stays right iff nothing was allocated for the device |
| PinDriver.Driver.HostAlloc | common/source/host/mmd.cpp:1422-1602 | Which error comes first, that errors before mmap change nothing, the state after a complete allocation, and what is left when the k-th pin fails; with distinct handles the registry stays right iff the call succeeds or changes nothing |
| PinDriver.Driver.FreeMemory | common/source/host/mmd.cpp:1611-1664 | Null and unknown addresses change nothing; an entry without handles is dereferenced, a fault; otherwise the memory is gone, or the entry stays without handles, unpinned up to the first closed device; the registry stays right iff the call does not give up |
| PinDriver.Driver.UnpinAllMem | common/source/host/mmd.cpp:632-663 | Faults iff the device is open and some entry has no handles; else exactly the listed ranges are unpinned, in whatever order the map is walked |
| PinDriver.Driver.RepinAllMem | common/source/host/mmd.cpp:672-707 | Success only if every listed range can be pinned, and then all are; an error only if one cannot or the device is unknown; a fault only at an entry without handles; pinned in any case are only listed ranges that can be |
| PinDriver.Driver.Program | common/source/host/mmd.cpp:829-868 | The device's pins after each outcome; from a right registry, a call that succeeds leaves it right iff every listed range can be pinned again, which its result does not show, and one that fails iff none is listed; faults iff some entry has no handles |
| InterruptWorker.RunKeepsInv | common/source/host/kernel_interrupt.cpp:87-255 | Every interleaving of owner, worker and any number of setters keeps the invariant |
| InterruptWorker.HandlerCallsAreSafe | common/source/host/kernel_interrupt.cpp:193-255 | Every handler call is made with the mask disabled and with function and user data of one set call, the latest |
| InterruptWorker.MaskExactly | common/source/host/kernel_interrupt.cpp:148-203 | On every run, while interrupts are enabled the mask is disabled exactly when the worker is between taking an interrupt and being done with it; after disabling, always |
| InterruptSetCalls.BoundIsAsked | common/source/host/kernel_interrupt.cpp:247-255 | On every run the bindings in effect so far, and those of set calls under way, are those of the set calls made |
| InterruptSetCalls.CallsWereAsked | common/source/host/kernel_interrupt.cpp:193-255 | Whatever handler is called with whatever user data, some set call of the run asked for the two together |
| InterruptWorker.DisableStops | common/source/host/kernel_interrupt.cpp:87-115 | When disable_interrupts has returned the worker has stopped and the mask is disabled, after at most one more call |
| InterruptShutdown.LateCallExactlyWhen | common/source/host/kernel_interrupt.cpp:193-203 | During the shutdown one more handler call can come iff the worker has not yet come to where it looks at the handler, or is there and finds one |
| InterruptShutdown.LateCallAfterStop | common/source/host/kernel_interrupt.cpp:98-101 | On every run, at the moment the worker is told to stop, the same place decides whether a call can still come |
| InterruptShutdown.NoneDueNoneComes | common/source/host/kernel_interrupt.cpp:193-203 | A call that is not due then does not come, whatever the threads do |
| InterruptShutdown.ToldAtOnce | common/source/host/kernel_interrupt.cpp:194-195 | A worker told to stop before its first step makes no call |
| InterruptWorker.QuietWhileIdle | common/source/host/kernel_interrupt.cpp:87-176 | Until interrupts are enabled again no handler is called and the mask stays disabled, whatever setters do |
| InterruptWorker.JoinIsBounded | common/source/host/kernel_interrupt.cpp:99-101 | While the owner waits in join the worker gets on at most eight more times |
| InterruptWorker.JoinIsNeverStuck | common/source/host/kernel_interrupt.cpp:99-101 | And it can get on, or the setter that holds the mutex can, for at most three more steps |
| InterruptShutdown.DisableReturns | common/source/host/kernel_interrupt.cpp:87-115 | Without new set calls disable_interrupts returns after a bounded number of steps of the threads in any order, with the worker stopped, the mask disabled and at most one more call made |
| InterruptShutdown.RunToReturn | common/source/host/kernel_interrupt.cpp:87-115 | From every state of a shutdown a run to the return exists |
| BufferSearch.Search | common/source/util/diagnostic/ocl.cpp:196-219 | The result is the largest size that can be allocated up to what the device reports |
| BufferSearch.NeverEnds | common/source/util/diagnostic/ocl.cpp:202-211 | With nothing to allocate, or nothing reported, the loop condition holds after any number of iterations |
| BufferSearch.EndsExactlyWhen | common/source/util/diagnostic/ocl.cpp:202-211 | The loop ends iff one byte can be allocated and the device reports at least one |
| BufferSearch.StepHalves | common/source/util/diagnostic/ocl.cpp:203-210 | Every attempt halves what is left to search |
| BufferSearch.EndsInTime | common/source/util/diagnostic/ocl.cpp:202-211 | If one byte can be allocated, the loop ends after one attempt more than the reported size has binary digits |

## Left out

- The export of read updates to the clock crossing bridge, and a FIFO of width 0, which has no RAM: nothing else depends on either.
- Voltage-level metastability: a flop that samples a changing bit sees the old or the new value, and only if both clocks have an edge at that moment. The asynchronous reset acts at once, between edges.
- The vendor RAM: a read gives the content at the edge that loads the output register, or anything at all if that word was never written or is being written at that edge.
- What the output shows while the FIFO is empty without the hold option: anything, as in the source.
- The physical parameter checks (acl_parameter_assert): they are the model's `Config.Valid`.
- FifoProgress.WordsArrive: a round of both clocks is counted, not time; the bound of 25*DEPTH+84 rounds is safe, not tight.
- DmaTransfer.Engine.DoDma: host and device addresses are unbounded, so a transfer that wraps at 2^64 is not modelled; failure of the final unpin is only logged by the code and is not modelled; the caller's memory does not overlap the driver's own buffer.
- DmaTransfer.Engine.SendAll: a descriptor either succeeds or fails, and a failed one may leave anything in its own destination; the hardware does not write elsewhere.
- DmaHandshake.OneCallAtATime: the channel is alive. A failed write of the source or destination register goes unnoticed by the code, a poll error counts as completion, and a poll timeout returns while the descriptor may still run; none of these is modelled.
- DmaQueue.MemoryAsEnqueued: assumes that nothing else writes the two memories. The caller's buffers are not touched before completion, and no blocking call runs on the channel at the same time; in the simulation build, where transfers up to 4 KB go through the driver's buffer, such a call would share that buffer without a lock. On hardware the limit is 0.
- DmaQueue.DoneOnceInOrder: blocking calls bypass the queue and are not in its order; the destructor, whose wake-up can come between the worker's check and its wait, is not modelled.
- BlockCopy.Device.CopyBlock: read_block and write_block are blocking transfers that move the bytes or fail; the debug output and the offset of device memory are left out.
- Mmio.Registers.WriteMmio: registers are bytes of memory in little-endian words; the delay before a software reset, registers with side effects, and addresses that wrap are left out.
- PinRegistry.PinsAgree: assumes what the code assumes of its callers, each device named once per allocation and closed after its allocations are freed; the operating system gives out free ranges; a handle is not given out twice, which holds until the counter wraps.
- PinDriver.Driver.HostAlloc: VTP is a set of pinned ranges per device, and releasing a range always works; the pins that the DMA engine takes for itself are not in it.
- PinDriver.Driver.Program: an exception while programming is swallowed by the code and reported as success; this path, the bitstream and the parsing of the package are not modelled.
- PinDriver.Driver.Open: board names, numeric identifiers and the state of the ASP are parameters.
- InterruptWorker.HandlerCallsAreSafe: interrupt mode only. In polling mode `yield` reads function and user data without the mutex. Event delivery is a wait that may end at any time, as the poll has a timeout. The owner calls enable and disable in turn.
- BufferSearch.Search: the addition of low and high does not wrap, and releasing a buffer gives back all of it.
- Device enumeration, sensors, NUMA placement, I/O pipes, reconfiguration tools, bandwidth measurement, environment variables and logging: register pokes and plumbing with only easy claims.
