# A verified model of gotor's circuit core

gotor is a Tor client in Go. This project models the parts of it that move relay
cells and must not get them wrong, and proves what they promise over whole runs:

- **Conflux** (`ConfluxSpec`, `ConfluxSystem`, `ConfluxSet`): one ordered stream of
  relay cells split over two circuits ("legs") by a sender that numbers cells
  implicitly and announces gaps with SWITCH cells, and put back in order by a
  receiver with a bounded out-of-order buffer.
- **Circuit flow control** (`SendmeSpec`, `SendmeSystem`, `SendmeProgress`,
  `FlowControl`): package and deliver windows, authenticated SENDMEs, in the classic and
  the congestion-controlled mode, and when a circuit can stall.
- **TOR_VEGAS** (`CCParams`, `VegasSpec`, `VegasWindow`, `VegasAvoidance`, `VegasSlowStart`,
  `VegasFloor`, `SlowStartRuns`, `AvoidanceRuns`, `VegasState`): RTT estimates,
  bandwidth-delay product, slow start, congestion avoidance and the counters that pace them.
- **Onion layering** (`Onion`, `OnionSession`, `OnionIntegrity`, `OnionCircuit`): tor1
  encryption to any hop, recognition by running digest, two-way conversations, what a
  changed cell comes to, and the mirrored hops of a rendezvous. `AuthenticatedFlow` puts flow control on top of it.
- **Replay protection** (`ReplaySpec`, `ReplayLog`, `Replay`): the sliding window of sequence numbers
  and cell digests.
- **Codecs and streams** (`RelayCodec`, `LinkCodec`, `WireFormat`, `ByteStream`,
  `StreamIds`, `Sampling`): relay messages v0 and v1, SENDME, SWITCH and LINK bodies and
  link cells, both as round trips and byte by byte on the wire, the cutting of a byte stream into DATA cells and its reassembly, stream-ID allocation,
  and two sampling routines of the padding code.

`Arith` and `Bytes` hold helpers. Code that the repository writes as pure expressions
is modelled as functions. Objects it updates in place are classes: every method is
proved equal to a function on values (`View() == Spec(old(View()), ...)`), and the
theorems are about those functions, so they hold of the objects. A run is a list of
events, and the theorems quantify over all such lists: any choice of legs, any
interleaving of sends and reads, any failed send, any RTT, any delay.

## What the proofs found

These are properties one would expect and the code does not have. In each case the code
is modelled as it is, a lemma gives a run from the start, or the input, that fails, and a
lemma says for all inputs exactly when the code does have the property.

- *An honest Conflux run can be torn down by delay alone.* Three cells sent on legs
  0, 1, 0 with leg 1 slow are enough: the SWITCH on leg 0 arrives from the leg that
  leads and is refused (`DelayedLegFails`). `RunFailsIff` says which runs fail and
  `RecvKeepsInv` which reads. From every error-free state there is still an order of
  reads that delivers everything (`EveryRunDrains`).
- *A circuit can stall for good.* With the default consensus parameters and a negotiated
  `sendme_inc` of 250, an RTT that rises from 3 ms to 30 ms leaves a window of 234 cells,
  below one SENDME's worth: the sender is refused, is owed nothing, and nothing is in
  transit (`DefaultsDeadlock`). `StallIff` gives the exact condition on the sender's
  parameters for such a run to exist: `cwndMin` below `sendme_inc`, or `gamma` between 0
  and `sendme_inc` and a first SENDME that can leave slow start on. The defaults meet it
  exactly for an increment above 124 (`DefaultsStarveIff`).
- *Slow start need not end.* `SlowStartIff` says exactly for which parameters the number of
  full windows in it is unbounded over the runs of a circuit: the initial window gets to
  `cwndMax` within slow start, by growing or from above, and holds on there. A ceiling of
  500 with the other defaults is an example (`CappedIsEndless`).
- *A delayed SENDME can exhaust the deliver window* in congestion-controlled mode
  (`DelayedSendmesFail`; `VegasFlowControl` says exactly which runs do). On the classic
  window it cannot (`ClassicFlowControl`). Since each SENDME leaves from its own goroutine
  one may also overtake another (`OvertakingRefused`), which is refused exactly when their
  tags differ (`OvertakingSendme`).
- *A blocked channel can raise the window* during slow start (`BlockedRaises`, exactly when
  in `BlockedSignal`), and a reset of the minimum RTT can put it above the average and the
  bandwidth-delay product above the window (`ResetOvershootsRun`, exactly when in
  `EstimateLaws`).
- *A send that fails after encryption leaves the two ends out of step.* The window is
  refunded but cipher and digest have moved; `LostCell` says exactly when the ends still
  mirror each other, which is never for a cell its destination could recognise.
- *ValidateAndTrackAuto remembers W + 1 cells*, one more than the window size its comments
  speak of, because it cleans the window before advancing (`ReplayRefinement`).
- *EncodeLink leaves a partial header behind* exactly when it refuses an oversized payload
  (`EncodeLink`).

## Model

| member | source | states |
|---|---|---|
| `ConfluxSpec.DrainExact` | pkg/circuit/conflux.go:423-436 | draining the buffer takes exactly the maximal run of consecutive numbers after the last delivered one, in order, and leaves every other entry untouched |
| `ConfluxSpec.ReorderAgainstAnyPeer` | pkg/circuit/conflux.go:406-459 | whatever a peer sends, buffered numbers stay 2 to 257 above the last delivered one, at most 256 are buffered, and a cell is refused exactly when its number is old, more than 257 ahead, or already buffered: the separate length check never decides |
| `ConfluxSpec.FeedKeepsInv` | pkg/circuit/conflux.go:266-294 | each accepted cell gets a fresh number, no number is ever given twice, and what was handed over only grows |
| `ConfluxSpec.AnyPeerRun` | pkg/circuit/conflux.go:406-459 | over any input from any peer the cells handed over are the accepted cells 1, 2, 3, ... each once, in order, and the rest of the accepted cells sit in the buffer under their numbers |
| `ConfluxSpec.AnyPeerFromStart` | pkg/circuit/conflux.go:22-35 | the same for a new set, spelled out cell by cell |
| `ConfluxSystem.StepKeepsSenderInv` | pkg/circuit/conflux.go:461-551 | the sender's counters stay level: no leg is ahead of the set, and the current leg never lags it |
| `ConfluxSystem.SentShape` | pkg/circuit/conflux.go:461-551 | a successful send puts on its leg the cell, preceded by one SWITCH carrying exactly the number of cells the leg missed, and by none when it missed none |
| `ConfluxSystem.SendOutcomes` | pkg/circuit/conflux.go:461-551 | exactly when a send succeeds, is refused because the leg missed more than 2^32 - 1 cells, fails without a trace, or fails after its SWITCH; and what each of the failures leaves behind |
| `ConfluxSystem.GrantedRunSends` | pkg/circuit/conflux.go:461-551 | in any run whose sends the network grants and whose gaps fit in 32 bits, every sequenced cell offered is sent, on the leg it was offered for and in that order |
| `ConfluxSystem.AppendSent` | pkg/circuit/conflux.go:500-546 | appending that SWITCH and cell to a leg with anything in flight leaves the leg naming exactly the numbers of the cells routed over it |
| `ConfluxSystem.InFlightEnd` | pkg/circuit/conflux.go:348-380 | the receiver's counter for a leg plus the weight of what is in flight is the sender's counter for it |
| `ConfluxSystem.SendKeepsInv` | pkg/circuit/conflux.go:461-551 | any send, successful, refused, failed before or after the SWITCH, keeps the system invariant |
| `ConfluxSystem.ReadData` | pkg/circuit/conflux.go:406-459 | reading an honest sequenced cell never finds an old or duplicate number; it fails exactly when its leg is more than 256 cells ahead of what was delivered, and otherwise extends the delivered prefix of what was sent |
| `ConfluxSystem.ReadSwitch` | pkg/circuit/conflux.go:348-380 | reading an honest SWITCH fails exactly when its leg leads or its target is too far ahead, and otherwise moves only that leg's counter |
| `ConfluxSystem.RecvKeepsInv` | pkg/circuit/conflux.go:266-294 | in an honest run one read fails if and only if the leg's next cell is out of reach or a SWITCH comes from the leading leg, and every read keeps the invariant |
| `ConfluxSystem.ConfluxSafety` | pkg/circuit/conflux.go:266-551 | over every run from a fresh set: the delivered cells are a prefix of the sent cells; errors are only the delay errors; while the sender is open each leg's counter is the number of the last cell that took it; the buffer holds exactly the cells read early; and every unread cell is on its own leg at the place of its number |
| `ConfluxSystem.RunFailsIff` | pkg/circuit/conflux.go:266-551 | a run from a fresh set fails if and only if one of its reads meets a cell out of reach or a SWITCH from the leading leg |
| `ConfluxSystem.UnreadIsOnLeg` | pkg/circuit/conflux.go:461-551 | a cell not yet read is on the leg it took, where the receiver will give it its number |
| `ConfluxSystem.RunComplete` | pkg/circuit/conflux.go:406-459 | in every run, once both legs are empty without an error, everything sent has been delivered in order, the buffer is empty and both ends' counters agree |
| `ConfluxSystem.OfferedIsDelivered` | pkg/circuit/conflux.go:266-551 | and from a fresh set, once both legs are empty without an error, what the receiver handed over is exactly what was offered to the sender |
| `ConfluxSystem.EmptyLegsComplete` | pkg/circuit/conflux.go:406-459 | the same from any state that keeps the invariant |
| `ConfluxSystem.NextReadSwitch` | pkg/circuit/conflux.go:365-379 | when cells are read in the order sent, a SWITCH levels its leg exactly with the last delivered number, which is why that comparison must not refuse equality |
| `ConfluxSystem.NextLegReads` | pkg/circuit/conflux.go:348-459 | reading the leg that holds the next undelivered cell never fails |
| `ConfluxSystem.AlwaysDrainable` | pkg/circuit/conflux.go:266-459 | from any error-free state there is an order of reads that empties both legs without an error and delivers everything sent |
| `ConfluxSystem.EveryRunDrains` | pkg/circuit/conflux.go:266-551 | so every error-free run can be continued by reads alone to full delivery |
| `ConfluxSystem.DelayedLegFails` | pkg/circuit/conflux.go:348-380 | an honest three-cell run with one delayed leg is refused as a SWITCH from the leader |
| `ConfluxSet.LinkConflux` | pkg/circuit/conflux.go:145-182 | a set is made exactly for two present, distinct, open, congestion-controlled circuits of three hops or more, with all counters zero and an empty buffer |
| `ConfluxSet.ConfluxSet.HandleLinked` | pkg/circuit/conflux.go:296-346 | a LINKED is taken exactly once per leg, with the set's nonce, on an open set; a refused one changes no leg, save that a lost LINKED_ACK leaves the leg marked |
| `ConfluxSet.ConfluxSet.FinishLink` | pkg/circuit/conflux.go:196-203 | linking, once both legs have answered, starts on the leg measured faster and touches no counter |
| `ConfluxSet.ConfluxSet.LegOf` | pkg/circuit/conflux.go:249-256 | a circuit is mapped to the leg it carries, or to none |
| `ConfluxSet.ConfluxSet.UniqueRecvLeader` | pkg/circuit/conflux.go:382-404 | the loop finds a leader exactly when one leg is strictly ahead of the other |
| `ConfluxSet.ConfluxSet.HandleSwitch` | pkg/circuit/conflux.go:348-380 | in place, a SWITCH does what the value-level function says, and nothing at all when not linked or from a stranger |
| `ConfluxSet.ConfluxSet.Reorder` | pkg/circuit/conflux.go:406-459 | in place, with its drain loop, a sequenced cell does what the value-level function says; sending state is untouched |
| `ConfluxSet.ConfluxSet.TakeRun` | pkg/circuit/conflux.go:423-436 | the drain loop computes the recursive drain |
| `ConfluxSet.ConfluxSet.OnRelayCell` | pkg/circuit/conflux.go:258-294 | dispatch of a relay cell in every state of the set: a LINKED is taken exactly when it comes from the exit hop and is due, a linked set receives as the value-level function says, and Conflux cells not from the exit hop of a leg are refused |
| `ConfluxSet.ConfluxSet.SendMultiplexed` | pkg/circuit/conflux.go:461-551 | in place, a send does what the value-level function says, and closes the set exactly when a SWITCH was sent but its cell was not |
| `ConfluxSet.ConfluxSet.Transmit` | pkg/circuit/conflux.go:494-551 | the part under the send lock, in place |
| `CCParams.PickParam` | pkg/circuit/ccparams.go:138-150 | a consensus value in range is used as is, a missing one gives the default, and in any case the result is the value of the range closest to the one asked for |
| `CCParams.ConsensusInRange` | pkg/circuit/ccparams.go:66-131 | whatever the consensus says every parameter is within both ends of its range, and an empty consensus gives the defaults |
| `CCParams.AnnouncedIsUsed` | pkg/circuit/ccparams.go:66-131 | parameters that a consensus publishes under their names are used as published, whatever the defaults are, if and only if they are in range |
| `VegasWindow.NewVegasLaws` | pkg/circuit/vegas.go:30-45 | a new circuit may send its initial window, or one increment if that is more; it is in slow start with nothing in flight and nothing measured; an increment below one means 31 |
| `VegasWindow.EwmaBetween` | pkg/circuit/vegas.go:74-79 | the moving average lies between the sample and the previous average, rounding included |
| `VegasWindow.EwmaWeight` | pkg/circuit/vegas.go:74-79 | the average over n samples weighs the new one 2 against n - 1, rounded down |
| `VegasWindow.MixBetween` | pkg/circuit/vegas.go:81-93 | the percentage mix lies between its two values, and exceeds the smaller exactly when the weighted difference reaches one unit |
| `VegasWindow.MixWeight` | pkg/circuit/vegas.go:81-93 | the mix weighs the larger value by the percentage, moved into 0..100, and the smaller by the rest, rounded down |
| `VegasWindow.FilterLaws` | pkg/circuit/vegas.go:97-113 | which RTTs count, by their ratio to the average and the state of the clock, and exactly when the clock is marked broken or sound |
| `VegasWindow.SpanLaws` | pkg/circuit/vegas.go:115-129 | how many samples the average spans in either phase |
| `VegasWindow.EstimateExact` | pkg/circuit/vegas.go:167-189 | an accepted RTT weighs 2 against n - 1 in the average; the minimum is the first average, the mix at the floor, or the smaller of the two; the product is the window times minimum over average; each rounded down, and when the SENDME is usable |
| `VegasWindow.EstimateLaws` | pkg/circuit/vegas.go:167-189 | an RTT is ignored without a trace or moves the average towards itself; the maximum is the running maximum; the minimum exceeds the average, and the bandwidth-delay product the window, exactly under conditions on the state before; queue use is within the window |
| `VegasWindow.StepKeepsSane` | pkg/circuit/vegas.go:241-276 | every event keeps parameters, estimates and window coherent, keeps the window in 1..cwndMax, and never re-enters slow start |
| `VegasWindow.MaxIsLargestAccepted` | pkg/circuit/vegas.go:167-173 | over every run the maximum RTT is the largest that passed the stall and jump filter |
| `VegasWindow.VegasOverEveryRun` | pkg/circuit/vegas.go:30-276 | over every sequence of sends and RTTs neither the average nor the minimum exceeds the largest accepted RTT, queue use is within the window, and the window is in 1..cwndMax if it starts there |
| `VegasSlowStart.AdjustSlow` | pkg/circuit/vegas.go:204-222 | slow start goes on exactly when the channel is open, the queue is below gamma, and the window is either not full and below ssMax, or grows without meeting an exit test; and what the window then is |
| `VegasSlowStart.AdjustExit` | pkg/circuit/vegas.go:204-222 | the window slow start leaves behind: bdp + gamma after a queue or a blocked channel, else what it had grown to, under ssMax and cwndMax |
| `VegasSlowStart.IncrementLaws` | pkg/circuit/vegas.go:131-143 | the slow-start increment is cwndIncPctSS percent of sendme_inc up to ssCap, and above it sendme_inc times ssCap over twice the window but at least one, to the nearest integer |
| `VegasSlowStart.SlowStartStep` | pkg/circuit/vegas.go:204-222 | an event that leaves slow start on, a SENDME having sendme_inc cells in flight, grows a full window by the increment, pulls any other down to cwndMax, and otherwise leaves it alone |
| `SlowStartRuns.ProcessOnVegas` | pkg/circuit/sendme.go:212-244 | an accepted SENDME is one step of TOR_VEGAS with at least sendme_inc cells in flight |
| `SlowStartRuns.SlowStartEnds` | pkg/circuit/vegas.go:204-222 | unless the window can get to the ceiling and hold on, every run of the two-ended system has at most a computed number of full SENDMEs in slow start, and that many end it |
| `SlowStartRuns.Climb` | pkg/circuit/vegas.go:191-222 | a window that can grow to cwndMax within slow start does, in a run that never sends past the window |
| `SlowStartRuns.Descend` | pkg/circuit/vegas.go:191-222 | a window above cwndMax that can come down to it within slow start does, in one round trip |
| `SlowStartRuns.StuckAtTop` | pkg/circuit/vegas.go:191-222 | at the ceiling, for every parameter set that sticks, a run of the two-ended system with any number of full windows that stays in slow start |
| `SlowStartRuns.SlowStartIff` | pkg/circuit/vegas.go:30-276 | from the start of a circuit, for any parameters of the two ends, the number of full windows in slow start is bounded over all runs if and only if the initial window cannot get to cwndMax in slow start and hold on there |
| `SlowStartRuns.SlowStartStateIff` | pkg/circuit/vegas.go:191-222 | over all states that keep the two-ended invariant, each is within its budget if and only if the parameters do not stick |
| `VegasSlowStart.DefaultsEnd` | pkg/circuit/ccparams.go:40-105 | the default parameters never stick, whatever the increment |
| `VegasSlowStart.CappedIsEndless` | pkg/circuit/ccparams.go:40-62 | a ceiling of 500 with the other defaults is endless, and with an ssMax of 501 as well it is not |
| `VegasWindow.AdjustMonotone` | pkg/circuit/vegas.go:204-237 | more queue never earns a larger window, in both phases and across all bands |
| `VegasWindow.BlockedSignal` | pkg/circuit/vegas.go:204-237 | a blocked channel never gives a larger window than an open one in congestion avoidance; in slow start it raises the window exactly when it is below bdp + gamma and both ceilings |
| `VegasWindow.GrowthNeedsDemand` | pkg/circuit/vegas.go:241-276 | on an open channel a SENDME grows the window only if it was usable and either the window counted as full and the queue was short for the phase, or congestion avoidance lifts it to cwndMin |
| `VegasAvoidance.RatesAreNearest` | pkg/circuit/vegas.go:54-70 | both event rates are the quotient rounded to the nearest integer, a half upwards, with a denominator of at least one |
| `VegasAvoidance.AvoidanceBands` | pkg/circuit/vegas.go:224-237 | what each band of the queue does to the window in congestion avoidance: above delta the queue left is delta - cwndInc, above beta or on a blocked channel it falls by cwndInc, below alpha a full window rises by cwndInc, all between cwndMin and cwndMax |
| `VegasAvoidance.AvoidanceDirection` | pkg/circuit/vegas.go:224-237 | so exactly when the window rises and exactly when it falls |
| `VegasAvoidance.AvoidanceLifts` | pkg/circuit/vegas.go:233-236 | a window below cwndMin is lifted to it, as far as cwndMax allows |
| `VegasAvoidance.RearmLaws` | pkg/circuit/vegas.go:266-274 | each counter that has run out starts again from its own rate, no other moves, and the full mark is cleared exactly at the start of the period it is kept for |
| `VegasAvoidance.CountersAfter` | pkg/circuit/vegas.go:241-276 | what a SENDME does to both counters and to the full mark, whether or not its RTT could be used |
| `VegasAvoidance.NextUpdate` | pkg/circuit/vegas.go:241-276 | over runs: after an update that leaves a window c the next comes with the first usable SENDME from number k on, for the k nearest to c / (cwndIncRate * sendme_inc), and the window does not move until then |
| `VegasAvoidance.NextRestart` | pkg/circuit/vegas.go:266-268 | over runs: likewise for the counter of a window of SENDMEs, with the k nearest to c / sendme_inc |
| `VegasAvoidance.CountsFromStart` | pkg/circuit/vegas.go:241-276 | over every run of a new circuit neither counter falls below zero, so the two laws above hold of every run |
| `AvoidanceRuns.OpenTrip` | pkg/circuit/vegas.go:224-276 | a full window acknowledged at a resting RTT on an open channel raises the window by cwndInc when the counter runs out, and only then |
| `AvoidanceRuns.GrowsFromStart` | pkg/circuit/vegas.go:30-276 | for any parameters with alpha above 0 there is a run of the two-ended system from the start that leaves slow start and brings the window to cwndMax |
| `VegasAvoidance.AlphaZeroNeverGrows` | pkg/circuit/vegas.go:224-237 | and with an alpha of 0 no run takes the window up in congestion avoidance, except to cwndMin |
| `VegasSlowStart.SlowStartIsLimited` | pkg/circuit/vegas.go:131-143 | above ssCap the slow-start increment is at least one, at most half of sendme_inc rounded up, and never grows with the window |
| `VegasAvoidance.WindowHolds` | pkg/circuit/vegas.go:241-276 | in congestion avoidance the window cannot change before the event counter runs out, in any run |
| `VegasFloor.NewIsFloored` | pkg/circuit/vegas.go:30-45 | a new circuit whose parameters do not meet the starving condition starts in the invariant that keeps the window |
| `VegasFloor.SendmeKeepsFloor` | pkg/circuit/vegas.go:204-276 | a SENDME for sendme_inc cells in flight keeps that invariant: the window at or above sendme_inc and, if gamma is below it, no slow start after the first usable SENDME |
| `VegasFloor.Shrink` | pkg/circuit/vegas.go:224-237 | round trips on a blocked channel bring the window down to any target above cwndMin |
| `VegasFloor.Starve` | pkg/circuit/vegas.go:204-237 | for every parameter set that meets the condition, round trips from the start, each with room in the window, that take it below sendme_inc |
| `VegasFloor.DefaultsStarveIff` | pkg/circuit/ccparams.go:40-105 | the default parameters meet the condition exactly for an increment above 124 |
| `VegasFloor.ResetOvershoots` | pkg/circuit/vegas.go:167-189 | round trips of a default circuit after which the minimum RTT is 1000 over an average of 400 and the product 310 over a window of 124 |
| `VegasState.VegasState.constructor` | pkg/circuit/vegas.go:30-45 | the initial state, with the window raised to sendme_inc |
| `VegasState.VegasState.StalledOrJumped` | pkg/circuit/vegas.go:97-113 | in place, with the process-wide broken-clock flag |
| `VegasState.VegasState.UpdateEstimates` | pkg/circuit/vegas.go:167-189 | in place, the estimates of the value-level function |
| `VegasState.VegasState.SlowStart` | pkg/circuit/vegas.go:204-222 | in place, the slow-start update |
| `VegasState.VegasState.CongestionAvoidance` | pkg/circuit/vegas.go:224-237 | in place, the congestion-avoidance update |
| `VegasState.VegasState.ProcessSendme` | pkg/circuit/vegas.go:241-276 | in place, one SENDME is the value-level step |
| `SendmeSpec.AuthTag` | pkg/circuit/sendme.go:52-61 | a tag is the whole of a 16-byte digest and the first 20 bytes of one of 20 or more, and is missing exactly for every other length |
| `SendmeSpec.RefundUndoesReserve` | pkg/circuit/sendme.go:275-286 | a refunded reservation leaves the state as it was, in either mode |
| `SendmeSpec.RefundStopsAtZero` | pkg/circuit/sendme.go:275-286 | a refund never takes the account of cells in flight below zero, and shows the window there is |
| `SendmeSpec.EnableLaws` | pkg/circuit/sendme.go:112-129 | congestion control starts exactly for an increment in 1..250, with both windows at the initial window but at least one increment, and nothing outstanding |
| `SendmeSpec.AcceptIff` | pkg/circuit/sendme.go:212-244 | a SENDME is accepted if and only if its body starts with the encoding of the oldest outstanding tag |
| `SendmeSystem.ReserveRecords` | pkg/circuit/sendme.go:151-167 | both modes' tests for recording a tag hold at exactly every inc-th cell sent |
| `SendmeSystem.StepKeepsInv` | pkg/circuit/circuit.go:1475-1582 | every step keeps the two-ended invariant, and the only failure is a delivery into an exhausted deliver window |
| `SendmeSystem.SendIff` | pkg/circuit/sendme.go:151-167 | a cell is sent exactly when the network takes it and fewer cells are unacknowledged than the window holds, and otherwise nothing at all changes |
| `SendmeSystem.SendmesCounted` | pkg/circuit/sendme.go:394-424 | over every run the receiver has counted exactly the SENDMEs it sent, from none on a new circuit and across a change of mode |
| `SendmeSystem.TagLaw` | pkg/circuit/sendme.go:151-244 | at any moment of any run the expected tags are those of every inc-th cell sent and not yet acknowledged, one per inc cells outstanding, and outstanding is sent less inc per SENDME accepted |
| `SendmeSystem.Tor1Tags` | pkg/circuit/sendme.go:52-61 | with digests of 20 bytes or more, as on tor1 hops, every expected tag is the first 20 bytes of the digest of a cell sent, and every SENDME body in transit is 23 bytes and starts with 1, 0, 20 |
| `SendmeSystem.ClassicFlowControl` | pkg/circuit/sendme.go:151-244 | over every classic run, with SENDMEs delayed at will: nothing fails, package window plus cells outstanding is 1000, and the deliver window covers every cell and SENDME in transit |
| `SendmeSystem.DisabledNeverFails` | pkg/circuit/sendme.go:135-147 | two ends that disable congestion control, in whatever state they were, start the classic scheme, and no run of it fails |
| `SendmeSystem.VegasFlowControl` | pkg/circuit/circuit.go:1513-1532 | over every congestion-controlled run, with SENDMEs delayed at will and any parameters at the two ends: it fails if and only if some delivery meets an overdrawn deliver window, and never if each SENDME leaves before the next delivery |
| `SendmeSystem.DeliverFailsIff` | pkg/circuit/sendme.go:181-195 | with delayed SENDMEs a delivery fails if and only if the SENDMEs waiting and the cells counted towards the next use up the initial deliver window |
| `SendmeProgress.DelayedSendmesFail` | pkg/circuit/sendme.go:181-195 | a run in which that happens |
| `SendmeSystem.OvertakingSendme` | pkg/circuit/circuit.go:1524-1532 | each due SENDME leaves from its own goroutine; one that overtakes the oldest is accepted if their tags are equal and refused as a mismatch if not |
| `SendmeProgress.OvertakingRefused` | pkg/circuit/circuit.go:1524-1532 | a run from the start in which that happens |
| `SendmeSystem.TagsAt` | pkg/circuit/sendme.go:151-177 | the tags a run owes are those of the cells numbered inc, 2 inc, 3 inc, ... |
| `SendmeProgress.RefusedIsOwed` | pkg/circuit/sendme.go:364-392 | when the package window is exhausted and the window is at least sendme_inc, an acknowledgement is owed and its cell or SENDME is in transit or waiting |
| `SendmeProgress.VegasNeverStalls` | pkg/circuit/sendme.go:364-392 | unless the sender's parameters meet the condition, no run lets the window fall below sendme_inc and none stalls: whenever a cell is refused an acknowledgement is owed and on its way |
| `SendmeProgress.StallIff` | pkg/circuit/sendme.go:151-392 | for any parameters of the two ends, some run from the start takes the window below sendme_inc, and some run stalls the circuit so that no continuation changes anything, if and only if the sender's parameters meet the condition |
| `SendmeProgress.StalledForGood` | pkg/circuit/sendme.go:364-392 | a stalled circuit stays as it is whatever happens |
| `SendmeProgress.ClassicNeverStalls` | pkg/circuit/sendme.go:364-392 | and no classic run does: ten acknowledgements are owed whenever sending is refused |
| `SendmeProgress.BelowFloorDeadlocks` | pkg/circuit/sendme.go:364-392 | from any idle state whose window is below sendme_inc there is a run to a state where sending is refused, nothing is owed and nothing is in transit |
| `SendmeProgress.PlayRounds` | pkg/circuit/circuit.go:1341-1582 | any round trips that fit the window are a run of the two-ended system |
| `SendmeProgress.DefaultsDeadlock` | pkg/circuit/ccparams.go:40-62 | with the default parameters and sendme_inc 250 a stall is reached from the start on an open channel |
| `SendmeProgress.BlockedRaises` | pkg/circuit/vegas.go:204-222 | a run from the start of a default circuit in which a SENDME that finds the channel blocked raises the window from 124 to 310 |
| `SendmeProgress.ResetOvershootsRun` | pkg/circuit/vegas.go:167-189 | a run of the two-ended system that puts the minimum RTT above the average and the product above the window |
| `FlowControl.FlowControl.EnableCongestionControl` | pkg/circuit/sendme.go:112-129 | in place; an increment outside 1..250 changes nothing |
| `FlowControl.FlowControl.DisableCongestionControl` | pkg/circuit/sendme.go:135-147 | in place, back to the classic windows |
| `FlowControl.FlowControl.DecrementPackageWindowForSendme` | pkg/circuit/sendme.go:151-167 | in place, a reservation, or no change when exhausted |
| `FlowControl.FlowControl.RefundPackageWindow` | pkg/circuit/sendme.go:275-286 | in place, the refund |
| `FlowControl.FlowControl.RecordSendmeTag` | pkg/circuit/sendme.go:169-177 | in place, the tag joins the queue |
| `FlowControl.FlowControl.DecrementDeliverWindowAndTakeSendme` | pkg/circuit/sendme.go:181-195 | in place, one delivery and whether a SENDME is due |
| `FlowControl.FlowControl.SendCircuitSendme` | pkg/circuit/sendme.go:394-424 | in place, one SENDME sent; no change on an unusable tag; and a window left raised when the circuit refuses the cell |
| `FlowControl.FlowControl.ProcessCircuitSendme` | pkg/circuit/sendme.go:212-244 | in place, one SENDME accepted, or no change at all when refused |
| `Onion.XoredTwice` | pkg/circuit/onion.go:46-61 | a layer put on and taken off at the same keystream position is the identity |
| `Onion.XorBit` | pkg/circuit/onion.go:46-48 | each bit of a masked byte is set exactly when one of the two bytes has it |
| `Onion.XorGroup` | pkg/circuit/onion.go:46-48 | masks combine in any order and grouping, and an empty mask changes nothing |
| `Onion.XorCancels` | pkg/circuit/onion.go:46-48 | two masks give the same byte only if they are the same |
| `Onion.WrapIsLayered` | pkg/circuit/onion.go:46-61 | the encryption loop puts on the layers of hops 0 to dest, hop 0 outermost, and moves exactly those forward ciphers |
| `Onion.EncryptMasks` | pkg/circuit/onion.go:17-63 | every byte sent is the byte of the payload, digest filled in, masked with the keystream bytes of all hops up to the destination |
| `Onion.LayerMatters` | pkg/circuit/onion.go:17-63 | replace the cipher of any one of those hops, and a byte sent stays the same if and only if the two keystreams agree there: no layer is skipped |
| `Onion.PeelLayered` | pkg/circuit/onion.go:66-89 | peeling a layered cell stops at the destination if and only if no earlier hop recognises it by accident, with payload, tag and every hop's state known |
| `Onion.FilledIsRecognized` | pkg/circuit/onion.go:36-45 | a payload whose digest field was filled in is recognised by the paired digest |
| `Onion.OnionRoundTrip` | pkg/circuit/onion.go:17-118 | between mirrored circuits a cell to any hop is recognised there if and only if there is no accident; then payload and tag agree and the circuits mirror each other again |
| `Onion.EncryptKeepsBackward` | pkg/circuit/onion.go:17-63 | sending touches no backward state |
| `Onion.PeelKeepsForward` | pkg/circuit/onion.go:66-89 | receiving touches no forward state |
| `Onion.LostCell` | pkg/circuit/circuit.go:1404-1434 | a cell encrypted and then not sent leaves mirrored ends mirrored if and only if encrypting it moved no cipher and no digest, which a recognisable cell always does |
| `OnionSession.InFlightAppend` | pkg/circuit/onion.go:17-63 | a clean cell sent behind any cells in flight will be read after them as it was sent |
| `OnionSession.PeelFrame` | pkg/circuit/onion.go:66-89 | what receiving does depends only on the backward state |
| `OnionSession.Conversation` | pkg/circuit/onion.go:17-118 | any number of cells to any hops, sent and read in both directions in any order: what each end has read is, cell by cell, what the other sent, at its hop, with its payload and tag; an empty direction has lost nothing and the ends mirror each other |
| `OnionSession.ConversationDrains` | pkg/circuit/onion.go:17-118 | from any moment of any conversation, as many reads as there are cells in flight leave each end with every cell the other sent |
| `OnionSession.NextCellMasked` | pkg/circuit/onion.go:17-63 | at any moment of any conversation the next cell of either end is masked with the keystream bytes of each hop that follow all the bytes that end has sent through the hop so far |
| `OnionSession.KeystreamUsedOnce` | pkg/circuit/onion.go:46-61 | so no two bytes sent through a hop share a keystream position |
| `OnionIntegrity.TagsAreHashes` | pkg/circuit/onion.go:36-45 | at any moment of any conversation the tag of every cell sent is the hash of its hop's seed followed by all payloads sent to that hop up to and including it, with their digest fields zeroed |
| `OnionIntegrity.TakenByFirst` | pkg/circuit/onion.go:66-118 | whatever any peer sends, a cell is taken at the first hop under whose layers its two zero bytes and its digest are right, with that payload and that tag, and at none if there is no such hop |
| `OnionIntegrity.TamperedCell` | pkg/circuit/onion.go:91-118 | a cell changed on its way outside its digest field is genuine to its destination if and only if its zero bytes are untouched and the hash of the other payload begins with the same four bytes: nothing less than a collision |
| `Onion.RendezvousMirrored` | pkg/circuit/hs_hop.go:15-62 | client and responder hops built from the same key material mirror each other in both directions |
| `Onion.RendezvousKeys` | pkg/circuit/hs_hop.go:15-51 | key material is Df, Db, Kf, Kb of 32 bytes each: the client sends under Kf and Df and reads under Kb and Db |
| `OnionSession.Rendezvous` | pkg/circuit/hs_hop.go:15-62 | client and service may exchange any relay cells in any order, without further condition, and each reads what the other sent with the same tags |
| `AuthenticatedFlow.Refines` | pkg/circuit/circuit.go:1341-1582 | every run of flow control over the onion layer, with each end using only its own digests, SENDMEs sent as encrypted cells, DATA refused and refunded, and other cells in between, is a run of the SENDME system |
| `AuthenticatedFlow.SameMessage` | pkg/cell/relay.go:138-167 | the digest field changes neither the kind of a relay cell nor its body |
| `AuthenticatedFlow.ClassicEndToEnd` | pkg/circuit/circuit.go:1341-1582 | so between mirrored ends on the classic window no deliver window runs out and no SENDME is refused, in any run, and every SENDME in transit is a 20-byte one |
| `AuthenticatedFlow.VegasEndToEnd` | pkg/circuit/circuit.go:1341-1582 | and under congestion control an exhausted deliver window is the only failure, with SENDMEs of the same form |
| `OnionCircuit.XorInPlace` | pkg/circuit/onion.go:46-48 | in place on the buffer, one cipher's bytes |
| `OnionCircuit.FillDigest` | pkg/circuit/onion.go:36-45 | in place on the buffer, the digest field |
| `OnionCircuit.OnionCircuit.EncryptOnion` | pkg/circuit/onion.go:17-63 | the loop with hops updated in place is the value-level function; a hop out of range changes nothing |
| `OnionCircuit.OnionCircuit.DecryptOnion` | pkg/circuit/onion.go:66-89 | likewise for decryption |
| `OnionCircuit.Check` | pkg/circuit/onion.go:91-118 | recognition commits the running digest exactly on a match |
| `ReplaySpec.AcceptedIsNew` | pkg/cell/replay.go:175-193 | an accepted number was never accepted before, though its entry may be forgotten, and an accepted digest was not accepted within the window |
| `ReplaySpec.ReplayHistory` | pkg/cell/replay.go:89-138 | any mix of calls keeps the invariant between the bounded tracker and the full history of accepted cells |
| `ReplaySpec.ReplayFromStart` | pkg/cell/replay.go:196-230 | in every run no number is accepted twice, digests and numbers are in bijection, and at most W + 1 are kept |
| `ReplaySpec.AutoStep` | pkg/cell/replay.go:305-335 | automatic tracking accepts a cell exactly when its digest is not among the last W + 1 accepted |
| `ReplaySpec.ReplayRefinement` | pkg/cell/replay.go:305-364 | over every input the bounded tracker gives the same answers as an unbounded history whose last W + 1 cells may not recur |
| `ReplaySpec.RefinementFromStart` | pkg/cell/replay.go:64-84 | the same from a new tracker |
| `ReplayLog.SameVerdict` | pkg/cell/replay.go:175-193 | which cells get which verdict, in terms of everything accepted so far: a new number at most W behind and 2 W ahead with a digest not remembered is accepted, and no other |
| `ReplayLog.TrackerIsLog` | pkg/cell/replay.go:89-364 | over any mix of numbered, automatic and handed-out numbers the bounded tracker answers as an unbounded log of all accepted cells, which never admits a number twice |
| `ReplayLog.LogFromStart` | pkg/cell/replay.go:64-138 | the same from a new tracker; its statistics are the cells refused and the cells accepted late |
| `Replay.DirectionState.CleanupWindow` | pkg/cell/replay.go:196-230 | the two deletion loops compute the cleanup |
| `Replay.DirectionState.TrackNumbered` | pkg/cell/replay.go:107-138 | in place, tracking with a caller's number |
| `Replay.DirectionState.TrackNext` | pkg/cell/replay.go:338-364 | in place, tracking with the next number |
| `Replay.ReplayProtection.ValidateAndTrack` | pkg/cell/replay.go:89-104 | one direction is tracked and the other is untouched; an empty cell changes nothing |
| `Replay.ReplayProtection.ValidateAndTrackAuto` | pkg/cell/replay.go:305-335 | likewise with automatic numbers |
| `Replay.ReplayProtection.GetNextSequence` | pkg/cell/replay.go:285-298 | hands out the next number of one direction and advances only that |
| `RelayCodec.V0RoundTrip` | pkg/cell/relay.go:106-167 | a v0 message decodes to itself whatever bytes replace its padding |
| `RelayCodec.V0DecodeEncode` | pkg/cell/relay.go:138-167 | every payload the v0 decoder accepts is, up to its message end, the encoding of what it decodes to |
| `RelayCodec.EncodeRelayCellV0` | pkg/cell/relay.go:106-135 | the buffer filled field by field is the encoding |
| `RelayCodec.V1RoundTrip` | pkg/cell/relay_v1.go:54-122 | a v1 message survives any contents of the tag area and of everything past its end |
| `RelayCodec.V1DecodeEncode` | pkg/cell/relay_v1.go:84-104 | a decoded v1 message can be encoded again exactly when it does not carry stream ID 0 where one is required, and then gives the same bytes |
| `RelayCodec.EncodeRelayCellV1` | pkg/cell/relay_v1.go:54-81 | the buffer filled field by field is the encoding |
| `RelayCodec.SendmeRoundTrip` | pkg/cell/sendme.go:25-61 | a body decodes to version 1 with a given tag if and only if it starts with that tag's encoding |
| `RelayCodec.EncodeSwitch` | pkg/cell/conflux.go:69-83 | a SWITCH count survives encoding |
| `RelayCodec.ConfluxLinkRoundTrip` | pkg/cell/conflux.go:34-66 | a body decodes to a LINK if and only if it starts with that LINK's encoding |
| `LinkCodec.LinkRoundTrip` | pkg/cell/cell.go:144-250 | a link cell is read back, padded if fixed, consuming exactly its bytes whatever follows |
| `LinkCodec.LinkDecodeEncode` | pkg/cell/cell.go:207-250 | whatever decodes is the encoding of the cell it decodes to |
| `LinkCodec.LinkStream` | pkg/cell/cell.go:144-250 | any list of cells written one after another is read back cell by cell |
| `LinkCodec.EncodeLink` | pkg/cell/cell.go:144-199 | writing succeeds exactly for encodable cells; an oversized payload leaves circuit ID and command behind, any other refusal nothing |
| `LinkCodec.DecodeLink` | pkg/cell/cell.go:207-250 | the reader consumes exactly the decoded cell, and reports the decoder's errors |
| `WireFormat.V0OnTheWire` | pkg/cell/relay.go:106-135 | where every field of a v0 message is on the wire, numbers most significant byte first, and zeros to 509 |
| `WireFormat.V0Accepts` | pkg/cell/relay.go:138-167 | exactly which payloads are read as v0, and for the others which error |
| `WireFormat.StreamCommands` | pkg/cell/relay_v1.go:43-52 | which command numbers carry a stream ID in v1; Conflux orders exactly the same ones |
| `WireFormat.ConfluxCommands` | pkg/circuit/conflux.go:258-294 | the commands Conflux handles itself are numbered 19 to 22 and none of them is put in order |
| `WireFormat.V1OnTheWire` | pkg/cell/relay_v1.go:54-81 | where every field of a v1 message is on the wire |
| `WireFormat.V1Accepts` | pkg/cell/relay_v1.go:84-104 | exactly which payloads are read as v1 |
| `WireFormat.SendmeOnTheWire` | pkg/cell/sendme.go:25-34 | a SENDME body is 1, the length of the tag, and the tag, of 16 or 20 bytes |
| `WireFormat.SendmeAccepts` | pkg/cell/sendme.go:37-61 | exactly which bodies are read as version 0, which as version 1, and which error the others give |
| `WireFormat.SwitchOnTheWire` | pkg/cell/conflux.go:69-83 | a SWITCH count is four bytes, most significant first, and what follows is ignored |
| `WireFormat.SwitchCellOnTheWire` | pkg/circuit/conflux.go:516-524 | the SWITCH cell a sender emits has command 22, no stream, a zero recognized field and the count, in either encoding |
| `WireFormat.ConfluxLinkOnTheWire` | pkg/cell/conflux.go:34-49 | where every field of a LINK body is on the wire |
| `WireFormat.LinkOnTheWire` | pkg/cell/cell.go:144-199 | where circuit ID, command, length, payload and padding of a link cell are, for either width of circuit ID |
| `WireFormat.LinkAccepts` | pkg/cell/cell.go:207-250 | a link cell is read exactly when all of it has arrived |
| `ByteStream.RelayDataMax` | pkg/circuit/conflux.go:597-608 | the loop finds the smallest DATA size over the legs |
| `ByteStream.DataMaxIsExact` | pkg/cell/relay_v1.go:35-40 | that size is 488 or 498 bytes by the encoding, and a DATA cell can be encoded exactly up to it |
| `ByteStream.ChunkFitsEveryLeg` | pkg/circuit/conflux.go:133-141 | a chunk of that size can be encoded on whichever leg it takes |
| `ByteStream.ChunksLaws` | pkg/circuit/circuit.go:1714-1731 | the pieces concatenate to the data, none is empty or too long, and all but the last are full |
| `ByteStream.WriteToStream` | pkg/circuit/circuit.go:1714-1731 | the loop sends one DATA cell per piece, in order, and stops exactly at the first send that fails |
| `ByteStream.OneCell` | pkg/circuit/circuit.go:1690-1699 | a cell holds bytes of a stream exactly if it is a DATA cell of that stream |
| `ByteStream.StreamAppends` | pkg/circuit/circuit.go:1671-1701 | what comes later in a queue counts for a stream exactly if no END of it came before |
| `ByteStream.StreamConn.ReadFromStream` | pkg/circuit/circuit.go:1671-1701 | the next payload of the stream, up to its END, with exactly the cells of other streams it passed handed off in order |
| `ByteStream.StreamConn.Read` | pkg/circuit/stream_conn.go:52-72 | what is returned is cut off the front of what remained, for any buffer size, with the rest kept for the next read, and every read makes progress |
| `ByteStream.WrittenIsReadable` | pkg/circuit/circuit.go:1671-1731 | mixed in any way with other streams, the cells of a write hold exactly the written bytes for its reader |
| `ByteStream.Transfer` | pkg/circuit/stream_conn.go:52-72 | reads with any buffer sizes return a prefix of the written bytes, and all of them within as many nonempty reads as there are bytes and cells |
| `StreamIds.StreamIds.Allocate` | pkg/circuit/circuit.go:691-722 | the first free ID at or cyclically after the cursor, and failure exactly when 1..65535 are all taken |
| `StreamIds.StreamIds.Release` | pkg/circuit/circuit.go:724-731 | frees exactly that ID |
| `StreamIds.StreamIdHistory` | pkg/circuit/circuit.go:691-731 | over any history allocation fails exactly when 65535 IDs are out, and an ID given twice was released in between |
| `Sampling.UniformDuration` | pkg/circuit/padding.go:328-355 | every offset of the range has exactly the same number of accepted 64-bit draws |
| `Sampling.RandomDuration` | pkg/circuit/padding.go:328-355 | the loop returns the offset of the first accepted draw, in min..max, and min when the random source fails first |
| `Sampling.ChooseBin` | pkg/circuit/circpad_histogram.go:49-60 | the loop finds the bin whose interval of running totals holds the choice |
| `Sampling.BinUnique` | pkg/circuit/circpad_histogram.go:49-60 | only one bin's interval holds it |
| `Sampling.ExactWeights` | pkg/circuit/circpad_histogram.go:30-78 | of the equally likely choices exactly as many lead to a bin as it has tokens |
| `Sampling.SampleDelay` | pkg/circuit/circpad_histogram.go:30-78 | an empty histogram is an error, no tokens means infinity, and otherwise the delay lies in the chosen bin |

## Left out

- Cryptography: AES, SHA-1, SHA3 and SHA-256 are arbitrary functions; the onion theorems hold for every choice of them. CGO hops, ntor and the handshakes are not modelled.
- The sending of LINK cells, the handshake timeout and teardown, and the RTT-based choice of a leg: the choice is an arbitrary input of every send, so the theorems hold for any policy.
- Waiting: the retry loop around a refused reservation, deadlines, wake-ups and context cancellation. A refusal is a state of the model, and the progress theorems say what is then in transit.
- Stream-level windows and stream SENDMEs, which follow the circuit-level scheme with other constants.
- AuthenticatedFlow.Refines: covers sends that fail before encryption. One that fails after it leaves the ends out of step (Onion.LostCell), and what is then read depends on the ciphers, which are arbitrary here.
- SendmeSystem models one direction of data; the other is its mirror image. Data cells and SENDMEs travel in separate first-in-first-out channels, which allows every interleaving of the one connection and more.
- SENDMEs waiting to leave do so in the order in which they fell due, and each is sent; SendmeSystem.OvertakingSendme says exactly when one goroutine overtaking another is harmless. A SENDME the circuit refuses destroys it, which ends the run.
- SendmeSystem theorems take DATA cells whose digest is long enough for a tag; AuthenticatedFlow derives this, and that both ends hold the same tag, from the onion layer.
- Width of integers: Go's int, int64 and uint64 counters are unbounded here, so wrap-around after 2^63 cells or microseconds is not modelled. Widths that matter on the wire (16-bit lengths, 32-bit circuit IDs and SWITCH counts, the 64-bit draw) are explicit.
- Locks: each method is one atomic step. Interleavings inside a method that releases its lock between two sections are not modelled.
- The hops of a circuit are held as values and replaced, so sharing of one cipher object between two hops is not captured.
- ReplayProtection's forward and backward fields are two objects of one class; its statistics and Reset are not modelled.
- ByteStream.StreamConn.ReadFromStream: where the source would block for the next cell the model reports that nothing has come.
- Sampling.RandomDuration: the random source is a list of draws, and the result is missing when the list runs out. Sampling.SampleDelay takes its two draws as arguments.
- Sampling.SampleDelay: which bin was chosen is reported through a ghost result.
- Relay and circuit padding machines, directory, consensus and path code, onion services beyond the rendezvous hop, SOCKS, configuration, logging and metrics: not part of this model.
