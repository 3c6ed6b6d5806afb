# Lattice: a verified model

Lattice moves market-feed events between processes through a shared-memory ring,
keeps an order book and its signals up to date one event at a time, and watches
the feed for manipulation with detectors built on small open-addressing tables
and running statistics. This project models that logic in Dafny and proves what
it is for: that no item is lost or torn on the ring, that the incremental signals
are the ones a recomputation from scratch would give, that the tables behave as
maps, and that each detector answers exactly when it should. It also models the
market simulator that feeds the tests.

`dafny verify dfyconfig.toml` checks everything.

## How the model is laid out

| files | part of the program |
|---|---|
| `Basics`, `MachineInts`, `Circular`, `Clock`, `FeedEvents` | optional values, fixed-width integers and masks, positions in a circular array, clock values, decoded events |
| `OrderTable`, `SpoofDetector`, `SpoofRuns`, `OrderCounts` | the spoof detector: its order table as functions on slots, the detector object, whole runs, how often an order is counted |
| `ShmProtocol`, `ShmRuns`, `ShmRaces`, `ShmHeader`, `ShmChannel` | the ring as a step system over histories and views, its interleavings, freedom from data races, publication of the header, and the segment one call at a time |
| `OrderBook`, `RollingWindow`, `SignalEngine` | the book with its cached top, the circular window, the signals |
| `SymbolTable`, `LayeringDetector`, `LayeringRuns`, `CancelSpikeDetector`, `CancelBuckets`, `CancelSpikeRuns` | the per-symbol table shared by two detectors, those detectors, what the bucket machine computes, whole runs |
| `Welford`, `LatencyHistogram` | running statistics, bucketed percentiles |
| `MarketSimulator`, `SimulatorFeed`, `SimulatorCalls` | the simulator over arbitrary draws, the feed it produces, and what each call makes of its draws |

Objects whose methods change fields are classes. Each method is proved equal to a
function of the old state (`Remove`, `Step`, `Applied`, `Next`, ...), or to leave a
value computed from the whole ghost history (`Recomputed`, `TwoPass`, `LastN`);
what the program promises is then proved about those functions over whole runs. The
main results are stated in the terms of events, configurations and histories, not in
those of the functions they are about.

**The order table.** A slot is valid when its order id is not zero. `Chained` says
that every record is reachable from its home slot through valid slots and that no
id is stored twice; inside the deletion loop `ChainedButHole` allows one hole, and
only records not yet scanned may have it on their path. Nothing is assumed about
free space: the table may be full and the cluster may wrap. The loop terminates
from every table state, chained or not (`ReinsertDecreases`).

**The ring.** Memory follows the release/acquire rules of section 6.9.2
[intro.multithread] of ISO/IEC 14882:2020. Every word of every slot has a history
of written values. A plain read may return any entry not older than the reader's
view, an acquire load of an index any store not older than the last one seen, and
such a load takes over the view released by the store. A slot is copied word by
word in any order by either side. That a read is neither torn nor stale is
therefore a theorem, not part of the step rules. In the other direction every plain
read is logged, a store to the read index releases how many reads were made, and the
producer's acquire load takes that over; that it overwrites a word only after all
reads of it is again a theorem (`ShmRaces.SlotsAreRaceFree`). Indices are 64-bit and wrap; the
`...Unbounded` lemmas show each step equal to the one on unbounded counts.

**Numbers.** Prices and statistics are reals. A z-score is compared by signs and
squares instead of dividing by a square root; `Welford.ZBelowIsQuotient` shows that
this is the same comparison.

## Where code and documentation differ

The model follows the code.

- `README.md:91` describes `ofi` as a rolling mean; the code publishes the latest
  delta (`src/signals/signal_engine.cpp:72-74`).
- `README.md:159` says eviction only breaks chains at slots that are not chain
  heads. Evicting a record that sits in its own home slot already hides another
  record (`OrderTable.EvictionHidesRecord`, and as a run with a lost latency
  `SpoofRuns.EvictionHidesOrder`). `OrderTable.FoundAfterEviction` says, for every
  table whether its chains were broken before or not, which records stay visible;
  `SpoofRuns.ChainsHoldIffHarmless` says in which runs no chain is ever broken. The
  rehash called "Robin Hood" there is a plain re-insertion.
- `include/lattice/shm/shm_layout.hpp:20` calls the indices never wrapping; the
  protocol is proved correct across the wrap as well.
- `include/lattice/anomaly/layering_detector.hpp:14` says an alert is raised when
  the count exceeds the threshold. Eight times are kept per side, so this holds for
  thresholds up to 7 and no alert is ever raised above that: alerts are exact if and
  only if the threshold is at most 7 (`LayeringRuns.ExactIffThresholdBelowEight`).
- `README.md:146` speaks of a cancel-to-add ratio; the code measures cancels per
  second (`src/anomaly/cancel_spike_detector.cpp:79-80`).
- `include/lattice/obs/latency_histogram.hpp:52` promises the bucket of the p-th
  percentile. This holds for p below 1; from p = 1 on the last bound is returned
  whatever was recorded, which is right if and only if the largest sample lies past
  the last finite bound (`LatencyHistogram.PercentileFromOneIff`).
- `include/lattice/sim/market_simulator.hpp:47` calls `max_pending_orders` a
  per-symbol cap. Bursts do not look at it: `SimulatorFeed.BurstIgnoresCap` is a
  first call that exceeds it, and `SimulatorFeed.CapHoldsBetweenBursts` says exactly
  when a call does.
- An Add whose id is 0 is treated as a tracked order but writes an empty slot. On a
  full table it erases slot 0 and can hide orders that are still stored
  (`SpoofRuns.ZeroIdHidesOrder`). `SpoofRuns.ChainsHoldIffHarmless` covers this case.
- When a full cancel-spike table gives a row to a new symbol, the row keeps the rate
  statistics of the old one, and these can raise an alert that the symbol alone would
  not (`CancelSpikeRuns.InheritedHistoryFires`). `CancelSpikeRuns.OwnAlertsIff` says
  exactly when a new symbol is judged by its own history alone, and
  `CancelSpikeRuns.SpikesAreExactSinceClaim` what it is judged by otherwise.
- `window_start_ns == 0` marks a cancel bucket as not opened, so a cancel that opens a
  bucket at clock value 0 is dropped by the next one. `CancelBuckets.CancelsConservedIff`
  says exactly when every cancel is counted.

## Model

| member | source | states |
|---|---|---|
| OrderTable.Scan | src/anomaly/anomaly_detector.cpp:113-122 | The probe loop ends at a valid record with the id, at an empty slot, or nowhere, and everything probed before is a valid record of another order. |
| OrderTable.HomeIsRemainder | src/anomaly/anomaly_detector.cpp:114 | The masked low 32 bits of an id are the id modulo the table size. |
| OrderTable.FindSound | src/anomaly/anomaly_detector.cpp:113-122 | From any table state a lookup returns only a valid record of the id asked for. |
| OrderTable.FindComplete | src/anomaly/anomaly_detector.cpp:113-122 | In a chained table every stored record is found, at its own slot. |
| OrderTable.FindIsLookup | src/anomaly/anomaly_detector.cpp:113-122 | In a chained table a lookup is map lookup, found and not found. |
| OrderTable.ReinsertDecreases | src/anomaly/anomaly_detector.cpp:149-156 | From any table state, broken chains and duplicate ids included, one turn of the rehash loop merges the record, moves it nearer home, or leaves it and comes closer to the next empty slot. |
| OrderTable.RehashTurn | src/anomaly/anomaly_detector.cpp:151-156 | One turn keeps an empty slot in the table, makes progress, and does not change what the loop ends with. |
| OrderTable.ReinsertLandsAt | src/anomaly/anomaly_detector.cpp:152-154 | The displaced record goes into the travelling hole exactly when the hole lies on its probe path, and otherwise back where it was. |
| OrderTable.ReinsertKeepsChain | src/anomaly/anomaly_detector.cpp:149-156 | One turn keeps the one-hole invariant, the hole moving to the vacated slot or staying, and loses no record. |
| OrderTable.RehashRestoresChain | src/anomaly/anomaly_detector.cpp:149-156 | The whole loop closes the hole: the table is chained again with the same records. |
| OrderTable.RemoveIsMapDeletion | src/anomaly/anomaly_detector.cpp:142-161 | From every chained table, full and wrapped ones included, removal restores the chain invariant and deletes exactly the one id. |
| OrderTable.RemoveThenFind | src/anomaly/anomaly_detector.cpp:113-161 | After a removal the id is not found and a lookup of every other id gives the same record as before, or none as before. |
| OrderTable.InsertIsMapUpdate | src/anomaly/anomaly_detector.cpp:124-140 | Insertion of a non-zero id keeps the chain invariant and is map update; only a new id on a full table loses something, and then exactly the occupant of its home slot. |
| OrderTable.InsertOfZero | src/anomaly/anomaly_detector.cpp:124-140 | Inserting id 0 with room changes nothing that can be looked up; on a full table exactly the record in slot 0 is lost, and chains survive if and only if no other record has slot 0 on its path. |
| OrderTable.RoomMeansGap | src/anomaly/anomaly_detector.cpp:124-140 | A table with fewer ids than slots has an empty slot. |
| OrderTable.InsertAddsOnly | src/anomaly/anomaly_detector.cpp:124-140 | From any table state insertion adds no record but its own. |
| OrderTable.RemoveInventsNothing | src/anomaly/anomaly_detector.cpp:142-161 | From any table state removal and its rehash bring no record that was not there. |
| OrderTable.EvictKeepsFresh | src/anomaly/anomaly_detector.cpp:105-111 | Eviction keeps exactly the records whose age, by the wrapping difference of the clock, is at most the window. |
| OrderTable.FoundIff | src/anomaly/anomaly_detector.cpp:113-122 | From any table state a stored record is found in its slot if and only if its probe path is unbroken and holds no other record of its id. |
| OrderTable.FoundAfterEviction | src/anomaly/anomaly_detector.cpp:105-122 | After eviction from any table, chains broken before or not, a surviving record is found in its slot if and only if every slot on its probe path holds a record of another order that survived too. |
| OrderTable.EvictionKeepsChainIff | src/anomaly/anomaly_detector.cpp:105-111 | Eviction keeps a chained table chained if and only if no surviving record has an evicted one on its probe path. |
| OrderTable.EvictIsFreshOnly | src/anomaly/anomaly_detector.cpp:105-111 | Eviction is removal of the stale entries from the map of contents. |
| OrderTable.EvictionHidesRecord | src/anomaly/anomaly_detector.cpp:105-122 | A concrete table in which evicting a record from its own home slot makes a stored, fresh record unfindable. |
| SpoofDetector.AnomalyDetector.constructor | src/anomaly/anomaly_detector.cpp:12-20 | A new detector has an empty table of the configured size and no samples. |
| SpoofDetector.AnomalyDetector.FindOrder | src/anomaly/anomaly_detector.cpp:113-122 | The masked probe loop computes the specified lookup. |
| SpoofDetector.AnomalyDetector.InsertOrder | src/anomaly/anomaly_detector.cpp:124-140 | The masked insertion loop leaves exactly the specified table. |
| SpoofDetector.AnomalyDetector.RemoveOrder | src/anomaly/anomaly_detector.cpp:142-161 | Removal in place leaves exactly the specified table, from any state. |
| SpoofDetector.AnomalyDetector.RehashCluster | src/anomaly/anomaly_detector.cpp:150-156 | The inner loop ends from any table state with an empty slot and leaves the specified table. |
| SpoofDetector.AnomalyDetector.EvictStale | src/anomaly/anomaly_detector.cpp:105-111 | Exactly the slots older than the window are blanked in place. |
| SpoofDetector.AnomalyDetector.OnAddEvent | src/anomaly/anomaly_detector.cpp:50-61 | Only Adds of at least the threshold quantity are inserted and counted. |
| SpoofDetector.AnomalyDetector.RecordLatency | src/anomaly/anomaly_detector.cpp:78-83 | The latency is written at the head of the circular buffer, which moves on by one; the buffer holds the most recent latencies and the statistics are those of all of them. |
| SpoofDetector.RecentPush | src/anomaly/anomaly_detector.cpp:78-80 | Writing at the head of the circular buffer keeps it the list of the newest latencies. |
| SpoofDetector.AnomalyDetector.OnCancelEvent | src/anomaly/anomaly_detector.cpp:63-103 | A Cancel evicts, records and removes as specified; an alert is raised if and only if the latency is an outlier against the two-pass statistics that include it, and reports the record taken. |
| SpoofDetector.AnomalyDetector.ProcessWithTime | src/anomaly/anomaly_detector.cpp:33-48 | One event takes the specified step; alerts and both counters are exact for every event type. |
| SpoofDetector.AnomalyDetector.Reset | src/anomaly/anomaly_detector.cpp:163-170 | Reset leaves no valid slot and no sample. |
| SpoofRuns.OnlyLargeAddsAndCancelsAct | src/anomaly/anomaly_detector.cpp:33-52 | From any state and at any clock value, an event that is neither a Cancel nor an Add of at least the threshold quantity changes nothing. |
| SpoofRuns.LargeAddIsStored | src/anomaly/anomaly_detector.cpp:50-61 | On a chained table, an Add of at least the threshold quantity and a real id that is stored or finds room becomes the map's entry for that id, with its price, size and clock value, and adds no sample. |
| SpoofRuns.RunIsThatOfActing | src/anomaly/anomaly_detector.cpp:33-61 | Every run ends in the state that its large Adds and Cancels alone would leave. |
| SpoofRuns.StepRefines | src/anomaly/anomaly_detector.cpp:50-103 | If no tracked order is stale at a Cancel and a new id finds room, one event is one map operation and one sample as the map says. |
| SpoofRuns.RunRefinesMap | src/anomaly/anomaly_detector.cpp:50-103 | Over every such run the table is the map from non-zero id to its latest large Add not yet cancelled, and the statistics are fed exactly the latencies of that map. |
| SpoofRuns.EventOnChained | src/anomaly/anomaly_detector.cpp:50-103 | On a chained table, chains hold after the eviction and at the end of an event if and only if the event is harmless; the contents then take a map step and the samples are those of the map. |
| SpoofRuns.ChainsHoldIffHarmless | src/anomaly/anomaly_detector.cpp:50-161 | Over every run, chains hold after each eviction and each event if and only if no eviction blanks a record on the path of a surviving one and no large Add of id 0 meets a full table in which a record probes past slot 0. |
| SpoofRuns.RunIsMapSteps | src/anomaly/anomaly_detector.cpp:50-161 | In every such run, evicting and overfull ones included, each event is a map operation, a Cancel first forgetting what is stale and recording exactly the sample the map gives; only the occupant of a new id's home slot on a full table is lost besides, and id 0 is never entered. |
| SpoofRuns.RunRefinesWindowMap | src/anomaly/anomaly_detector.cpp:50-161 | In every such run in which new ids find room, the table is the map of each id's latest large Add not yet cancelled or found too old at a Cancel, and the statistics are fed exactly its latencies. |
| SpoofRuns.AlertsAreExact | src/anomaly/anomaly_detector.cpp:63-103 | Over every harmless run with room: an event raises an alert only if it cancels an order remembered and no older than the window; it is then raised if and only if there are two latencies or more, not all equal, and the latency less the mean of all of them, itself included, divided by any root of their variance, lies below the threshold; it reports that order's id, price, size and both times, the deviation and the variance. |
| SpoofRuns.ChainsHoldIffZerosHarmless | src/anomaly/anomaly_detector.cpp:50-140 | In particular, in a run in which eviction removes nothing chains hold throughout if and only if the Adds of id 0 are harmless. |
| SpoofRuns.CancelSeesOrderIff | src/anomaly/anomaly_detector.cpp:66-85 | From any state, chains broken or not, a Cancel finds a fresh stored order in its slot, and records its latency, if and only if every slot on the order's path holds another order that the eviction spares. |
| SpoofRuns.RecordsComeFromAdds | src/anomaly/anomaly_detector.cpp:50-161 | In every run each stored record is the trace of some large Add. |
| SpoofRuns.SamplesAreRealPairs | src/anomaly/anomaly_detector.cpp:63-122 | In every run, whatever eviction did to the chains, each latency is the time from an Add of at least the threshold quantity to a later Cancel of the same id, and at most the window. |
| SpoofRuns.MeanWithinWindow | src/anomaly/anomaly_detector.cpp:63-122 | In every run the running mean stays between 0 and the window. |
| SpoofRuns.AlertsNeedHistory | src/anomaly/anomaly_detector.cpp:82-93 | With a threshold t of at most 0 no run raises an alert before it has recorded more than 1 + t*t latencies. |
| SpoofRuns.DefaultNeedsSixCancels | src/anomaly/anomaly_detector.cpp:82-93 | With the default threshold of -2 no alert comes before the sixth tracked cancel. |
| SpoofRuns.SixthCancelCanFire | src/anomaly/anomaly_detector.cpp:82-102 | That bound is sharp: for every configuration with the default threshold and a window of at least 10 ns there is a run that raises an alert at its sixth tracked cancel. |
| SpoofRuns.ZeroIdHidesOrder | src/anomaly/anomaly_detector.cpp:50-61 | A concrete run in which an Add of id 0 on a full table hides a stored order. |
| SpoofRuns.EvictionHidesOrder | src/anomaly/anomaly_detector.cpp:66-69 | A concrete run in which the eviction at a Cancel hides the very order it names, stored and fresh, so that its latency is not recorded. |
| OrderCounts.RemoveCopies | src/anomaly/anomaly_detector.cpp:142-161 | From any table state removal takes away at least the copy found, and the rehash adds none. |
| OrderCounts.AtMostOneSamplePerAdd | src/anomaly/anomaly_detector.cpp:50-161 | In every run, broken chains included, the stored copies of an order and the latencies measured from it are together no more than the large Adds of that id at that time. |
| ShmProtocol.WrapDifference | include/lattice/shm/shm_writer_impl.hpp:43 | Subtraction and equality of 64-bit indices are those of the unbounded counts as long as these lie less than 2^64 apart. |
| ShmProtocol.SlotIsMod | include/lattice/shm/shm_writer_impl.hpp:48 | Masking a 64-bit index chooses the slot of the unbounded count modulo N. |
| ShmProtocol.FullTestIsExact | include/lattice/shm/shm_writer_impl.hpp:40-46 | However stale the read index seen, the 64-bit difference in the full test is the exact number of items written beyond it and at most N. |
| ShmProtocol.LoadReadIdxUnbounded | include/lattice/shm/shm_writer_impl.hpp:41-46 | Loading the read index and testing for full equals the step on unbounded counts, for try_write and for the retry of write_blocking. |
| ShmProtocol.CopyInUnbounded | include/lattice/shm/shm_writer_impl.hpp:48 | Copying a word in equals the step on unbounded counts. |
| ShmProtocol.LoadOtherWriteIdxUnbounded | include/lattice/shm/shm_reader_impl.hpp:60-65 | Loading the write index and testing for empty equals the step on unbounded counts. |
| ShmProtocol.CopyOutUnbounded | include/lattice/shm/shm_reader_impl.hpp:67 | Copying a word out, whichever admissible value the plain read returns, copies that word of the item due. |
| ShmProtocol.RecordDepthUnbounded | include/lattice/shm/shm_reader_impl.hpp:70-73 | The recorded depth is the number of items left as the reader saw it, below N. |
| ShmProtocol.ReadIsExact | include/lattice/shm/shm_reader_impl.hpp:60-68 | Every value a plain read may return under release/acquire ordering is the word of the item due. |
| ShmProtocol.StepKeepsInv | include/lattice/shm/shm_writer_impl.hpp:33-57 | Every step of either side, with any admissible staleness, keeps the protocol invariant. |
| ShmRuns.ReadIsPrefixOfWritten | include/lattice/shm/shm_reader_impl.hpp:55-75 | In every interleaving without a reattach the items read are a prefix of the items written, each whole, and at most N lie between (with reattaches: the next row). |
| ShmRuns.ReattachDeliversFromObserved | include/lattice/shm/shm_reader_impl.hpp:77-88 | After a reattach that observed write index m, exactly the items from m on are delivered, in order, and the read count never passes the write count. |
| ShmRuns.SlotsExclusive | include/lattice/shm/shm_writer_impl.hpp:40-49 | In every interleaving, while both sides copy, they copy in different slots. |
| ShmRuns.NoTornRead | include/lattice/shm/shm_reader_impl.hpp:60-68 | In every interleaving each word read belongs to the one item due, so no element is torn. |
| ShmRaces.OverwriteFollowsReads | include/lattice/shm/shm_writer_impl.hpp:41-48 | The acquire load of the read index has shown the producer every read of a word before it overwrites that word. |
| ShmRaces.ReadFollowsWrites | include/lattice/shm/shm_reader_impl.hpp:61-67 | The acquire load of the write index has shown the consumer every write of a word before it reads that word. |
| ShmRaces.SlotsAreRaceFree | include/lattice/shm/shm_writer_impl.hpp:40-49 | In every interleaving, reattaches included, no plain access to a slot word races with another. |
| ShmRuns.RefusedOnlyWhenFull | include/lattice/shm/shm_writer_impl.hpp:43-57 | A write is refused and counted as dropped if and only if the ring is full by the read index seen; write_blocking never gives up. |
| ShmRuns.BlockingKeepsItem | include/lattice/shm/shm_writer_impl.hpp:54-57 | write_blocking holds on to its item through every step until the step that publishes it. |
| ShmRuns.StepKeepsItem | include/lattice/shm/shm_writer_impl.hpp:33-57 | Of either write call, the item passed in is the item published, unless it is dropped. |
| ShmRuns.SentItemsWereWritten | include/lattice/shm/shm_writer_impl.hpp:33-57 | In every interleaving the items published are items passed to write calls, in the order of the calls, each call used once. |
| ShmRuns.CountersBalance | include/lattice/shm/shm_writer_impl.hpp:35-51 | In every interleaving received = processed + dropped + at most one in flight, none exactly when the producer is idle, and recorded depths are below N. |
| ShmRuns.ProducerCanStep | include/lattice/shm/shm_writer_impl.hpp:33-57 | In every reachable state the producer has a step of its own to take. |
| ShmRuns.ConsumerCanStep | include/lattice/shm/shm_reader_impl.hpp:55-88 | In every reachable state the consumer has a step of its own to take. |
| ShmHeader.ProgramIsSafe | include/lattice/shm/shm_writer_impl.hpp:101-117 | The stores of init_header end with the magic, and leave a complete header with magic 0x4C41545449434500 and version 1, and zero indices. |
| ShmHeader.FieldIsFinal | include/lattice/shm/shm_reader_impl.hpp:98-108 | A reader past the magic can only read the final value of each later field. |
| ShmHeader.ValidationIsSafe | include/lattice/shm/shm_reader_impl.hpp:98-108 | On a fresh segment validation at any moment of init_header gives BadMagic or success, and success means every store is made and visible with both indices zero. |
| ShmHeader.NewestLoadAdvances | include/lattice/shm/shm_reader_impl.hpp:98-108 | Once initialised, a reader that loads the newest values passes every test. |
| ShmHeader.ResultsAreGrounded | include/lattice/shm/shm_reader_impl.hpp:98-108 | Whatever a segment holds and its writer stores meanwhile, validation succeeds only after reading this magic, version 1, this capacity and this element size, and each failure was read off the first field that is wrong. |
| ShmChannel.Segment.InitHeader | include/lattice/shm/shm_writer_impl.hpp:101-117 | Initialisation leaves an empty ring and a valid header, whatever the region held. |
| ShmChannel.Segment.ValidateHeader | include/lattice/shm/shm_reader_impl.hpp:98-108 | Validation succeeds exactly on a header of this version, capacity and element size, and reports the first mismatch. |
| ShmChannel.Segment.TryWrite | include/lattice/shm/shm_writer_impl.hpp:33-52 | A call appends the item unless N items are queued, and counts received, processed and dropped if statistics are attached. |
| ShmChannel.Segment.Publish | include/lattice/shm/shm_writer_impl.hpp:48-49 | Filling the slot and advancing the index appends the item. |
| ShmChannel.Segment.TryRead | include/lattice/shm/shm_reader_impl.hpp:55-75 | A call takes the oldest item, or reports an empty ring, and the depth is the number left. |
| ShmChannel.Segment.Reattach | include/lattice/shm/shm_reader_impl.hpp:77-88 | With a good header everything queued is skipped; with a bad one nothing changes. |
| OrderBook.LevelsBelong | src/signals/order_book.cpp:104-120 | The listed levels belong to the side, as many as asked for or as there are. |
| OrderBook.LevelsAreTheBest | src/signals/order_book.cpp:104-120 | They are in strict price order and every level left out comes after all of them. |
| OrderBook.LevelsAreIndependent | src/signals/order_book.cpp:25-82 | The book holds at each price what the events at that price alone leave there. |
| OrderBook.AddRaises | src/signals/order_book.cpp:25-32 | After any events, an Add leaves at its price and side the quantity before, 0 without a level, plus its own, modulo 2^32, and nothing else changed. |
| OrderBook.ModifySets | src/signals/order_book.cpp:34-51 | A Modify leaves exactly its quantity at its price and side, and nothing else changed. |
| OrderBook.CancelErases | src/signals/order_book.cpp:53-60 | A Cancel leaves no level at its price and side, and nothing else changed. |
| OrderBook.TradeLowers | src/signals/order_book.cpp:62-82 | On either side a Trade leaves at its price the quantity before less its own, no level if that is not positive, and every other price as it was. |
| OrderBook.OtherEventsKeep | src/signals/order_book.cpp:18 | An event of another type leaves the book as it was. |
| OrderBook.CancelForgets | src/signals/order_book.cpp:34-60 | Nothing before a Cancel or a Modify matters at its price and side any more: after any further events the quantity there is what it would be had the book begun empty, after a Modify with one Add of its quantity. |
| OrderBook.TradeUndoesAdd | src/signals/order_book.cpp:25-82 | With nothing on the other side at that price, a Trade takes back an Add of the same size if and only if there was no level, or one with quantity above 0 whose sum with the Add fits in 32 bits. |
| OrderBook.TopIsExtreme | src/signals/order_book.cpp:84-102 | After any events the best bid is the greatest bid price with a level and the best ask the least ask price, each with that level's quantity, or zeros for an empty side. |
| OrderBook.OrderBook.RefreshBbo | src/signals/order_book.cpp:84-102 | The cached top becomes the top of the two maps, which do not change. |
| OrderBook.OrderBook.OnAdd | src/signals/order_book.cpp:25-32 | An Add raises its level, modulo 2^32, and the cache stays right. |
| OrderBook.OrderBook.OnModify | src/signals/order_book.cpp:34-51 | A Modify sets its level, and the cache stays right. |
| OrderBook.OrderBook.OnCancel | src/signals/order_book.cpp:53-60 | A Cancel erases its level, and the cache stays right. |
| OrderBook.OrderBook.OnTrade | src/signals/order_book.cpp:62-82 | A Trade lowers or erases its price on both sides, and the cache stays right. |
| OrderBook.OrderBook.Process | src/signals/order_book.cpp:5-23 | One event is applied, the cache is the top of the new book, and true is returned if and only if the top changed. |
| OrderBook.OrderBook.TopLevels | src/signals/order_book.cpp:104-120 | The loop fills in exactly the first n levels of the side. |
| OrderBook.OrderBook.Clear | src/signals/order_book.cpp:122-129 | Both sides are empty and the cache is zero. |
| RollingWindow.Window.Push | include/lattice/signals/rolling_window.hpp:15-19 | Through any number of wraps the window is the last N pushes. |
| RollingWindow.Window.At | include/lattice/signals/rolling_window.hpp:25-27 | Index 0 is the oldest of the last N pushes and count-1 the newest. |
| RollingWindow.Window.Clear | include/lattice/signals/rolling_window.hpp:50-54 | The window is empty again. |
| RollingWindow.Mean | include/lattice/signals/rolling_window.hpp:30-36 | The loop computes the mean of the last N pushes, 0 if there are none. |
| RollingWindow.Variance | include/lattice/signals/rolling_window.hpp:39-48 | The square of the result times the count is the sum of squared deviations of the last N pushes from their mean; 0 below two. |
| SignalEngine.SignalEngine.Process | src/signals/signal_engine.cpp:15-46 | After every event the whole snapshot equals the one recomputed from the entire event history, on the fast path too. |
| SignalEngine.SignalEngine.UpdateTop | src/signals/signal_engine.cpp:21-34 | When the top did not change, skipping the recomputation loses nothing: every top-of-book signal still equals its recomputation. |
| SignalEngine.FastPathIsSound | src/signals/signal_engine.cpp:32-34 | When the top did not change, setting the time is all that a recomputation of the top-of-book signals would do. |
| SignalEngine.SignalEngine.SlowPath | src/signals/signal_engine.cpp:23-31 | When it changed, delta and signals become those of the whole history. |
| SignalEngine.SignalEngine.RecomputeSignals | src/signals/signal_engine.cpp:48-75 | The slow path sets mid, spread, imbalance, microprice, latest delta and the window statistics from the top of the book and the histories behind the windows. |
| SignalEngine.SignalEngine.ComputeVamp | src/signals/signal_engine.cpp:77-99 | VAMP is the quantity-weighted price of the three best levels of each side, 0 without quantity. |
| SignalEngine.SignalEngine.ComputeTfi | src/signals/signal_engine.cpp:101-110 | TFI is the buy share of the volume in the trade window, one half without volume. |
| SignalEngine.SignalEngine.Reset | src/signals/signal_engine.cpp:112-120 | The engine is as if no event had been seen. |
| SignalEngine.OfiTelescopes | src/signals/signal_engine.cpp:23-29 | The order-flow deltas pushed since reset add up to best bid quantity minus best ask quantity. |
| SignalEngine.HistoriesAligned | src/signals/signal_engine.cpp:23-45 | Both top-of-book windows get one entry per change of the top, the newest imbalance being the current one. |
| SignalEngine.MidAndSpread | src/signals/signal_engine.cpp:56-57 | In every snapshot half the spread below the mid price lies the best bid and half above it the best ask. |
| SignalEngine.ImbalanceOfTop | src/signals/signal_engine.cpp:59-65 | In every snapshot the imbalance times the total quantity at the top is the bid quantity less the ask quantity; without quantity imbalance and microprice are 0. |
| SignalEngine.OfiIsLatestChange | src/signals/signal_engine.cpp:23-29 | The published order flow is the growth of the best bid quantity less that of the best ask quantity in the last event that changed the top, 0 before any. |
| SignalEngine.ObiStatistics | src/signals/signal_engine.cpp:67-70 | The published mean and variance are those of the last twenty imbalances, one for each change of the top. |
| SignalEngine.TfiIsBuyShare | src/signals/signal_engine.cpp:101-110 | The published trade-flow imbalance times the quantity of the last fifty Trades is the quantity of those on the bid side; one half without quantity. |
| SignalEngine.VampIsWeighted | src/signals/signal_engine.cpp:77-99 | The published VAMP times the quantity of the three best levels of each side is the sum of price times quantity over them; 0 without quantity. |
| SignalEngine.ObiInRange | src/signals/signal_engine.cpp:59-65 | The imbalance lies in [-1, 1] and is positive if and only if the best bid quantity exceeds the best ask quantity. |
| SignalEngine.MicropriceIsShiftedMid | src/signals/signal_engine.cpp:56-61 | In every snapshot with quantity at the top the microprice is the mid price plus the imbalance times half the spread. |
| SignalEngine.MicropriceBetween | src/signals/signal_engine.cpp:59-65 | The microprice lies between the best bid and the best ask. |
| SignalEngine.VampBetween | src/signals/signal_engine.cpp:77-99 | With positive quantity VAMP lies between the least and the greatest price used. |
| SignalEngine.TfiInRange | src/signals/signal_engine.cpp:101-110 | TFI lies in [0, 1] and exceeds one half if and only if bought volume exceeds sold volume. |
| Welford.UpdateIsTwoPass | src/anomaly/welford_stats.cpp:5-11 | One update of the two-pass statistics of a history gives those of the longer history. |
| Welford.FoldIsTwoPass | src/anomaly/welford_stats.cpp:5-11 | Over any history the running state is the two-pass mean and sum of squared deviations. |
| Welford.FoldMeanInRange | src/anomaly/welford_stats.cpp:5-11 | The running mean stays in any range that holds all the values. |
| Welford.ZBelowIsQuotient | src/anomaly/anomaly_detector.cpp:89-93 | The comparison by signs and squares is the comparison of deviation over standard deviation. |
| Welford.OwnScoreBound | src/anomaly/anomaly_detector.cpp:82-92 | A value scored against statistics that already contain it has a squared z-score of at most count - 1. |
| Welford.AlertNeedsSamples | src/anomaly/anomaly_detector.cpp:82-93 | A score below t, for t at most 0, needs more than 1 + t*t samples. |
| Welford.WelfordStats.Update | src/anomaly/welford_stats.cpp:5-11 | The three fields are the two-pass statistics of everything recorded. |
| Welford.WelfordStats.Reset | src/anomaly/welford_stats.cpp:13-17 | The fields are those of the empty history. |
| SymbolTable.LocateFinds | src/anomaly/layering_detector.cpp:28-40 | A symbol's row is found whatever shares its cluster. |
| SymbolTable.HomeIsRemainder | src/anomaly/layering_detector.cpp:29 | The masked symbol is the symbol modulo the table size. |
| SymbolTable.RunIsIsolated | src/anomaly/layering_detector.cpp:28-97 | While a run has at most as many symbols as rows, every row is what its own symbol's inputs alone make of it. |
| SymbolTable.SymbolIsolation | src/anomaly/cancel_spike_detector.cpp:28-102 | Answers and entries of a symbol equal those of a detector fed only that symbol's inputs, whatever the collisions and the interleaving; proved for every per-entry machine, hence for both detectors. |
| SymbolTable.RunKeepsChain | src/anomaly/layering_detector.cpp:28-47 | In every run, over capacity or not, each symbol with a row is found in it. |
| SymbolTable.RowsFollowTheirClaim | src/anomaly/layering_detector.cpp:28-97 | In every run, however many symbols it has, each row is what its symbol's inputs since it was last claimed make of the entry found then. |
| SymbolTable.AnswersFollowTheClaim | src/anomaly/cancel_spike_detector.cpp:28-102 | Likewise each answer depends only on the symbol's inputs since its row was last claimed and on the entry found then. |
| LayeringDetector.Compact | src/anomaly/layering_detector.cpp:66-73 | In-place compaction keeps, in order, exactly the times whose age, by the wrapping difference of the clock, is at most the window, each as often as it was there. |
| LayeringDetector.PushTime | src/anomaly/layering_detector.cpp:75-84 | The time is appended, dropping the oldest of eight. |
| LayeringDetector.RecordSide | src/anomaly/layering_detector.cpp:66-94 | Compaction, bounded push, firing and reset together are the specified step on one side. |
| LayeringDetector.LayeringDetector.constructor | src/anomaly/layering_detector.cpp:12-19 | A new detector has an empty table of the configured size. |
| LayeringDetector.LayeringDetector.FindOrInsertRow | src/anomaly/layering_detector.cpp:28-47 | The masked probe loop finds or claims the specified row, on a full table the home row. |
| LayeringDetector.LayeringDetector.Claim | src/anomaly/layering_detector.cpp:42-46 | A claimed row keeps nothing of its last owner. |
| LayeringDetector.LayeringDetector.RecordOrder | src/anomaly/layering_detector.cpp:63-96 | One order changes one side of one row as specified. |
| LayeringDetector.LayeringDetector.ProcessWithTime | src/anomaly/layering_detector.cpp:53-97 | One event takes the specified step on the table; only large Adds touch it, and alert and counter are exact. |
| LayeringDetector.LayeringDetector.Reset | src/anomaly/layering_detector.cpp:99-102 | Reset leaves the table of a new detector, all counts zero. |
| LayeringRuns.LiveIsFaithful | src/anomaly/layering_detector.cpp:66-84 | For thresholds up to 7 the eight slots show all that an unbounded memory of the orders since the last alert would show through the window. |
| LayeringRuns.StepOutcome | src/anomaly/layering_detector.cpp:75-96 | An order fires exactly when more than the threshold of the times since the last alert, its own included, lie no further back than the window, then with threshold + 1 orders and the first of them. |
| LayeringRuns.SidesAreIndependent | src/anomaly/layering_detector.cpp:63-64 | Bids and asks of a symbol never affect each other. |
| LayeringRuns.AlertsAreExact | src/anomaly/layering_detector.cpp:53-97 | For a threshold up to 7, clock values that never go back and no more symbols than rows: an alert is raised if and only if the large Adds of that symbol and side since that side's last alert, no older than the window, exceed the threshold; it reports threshold + 1 orders and the oldest. |
| LayeringRuns.HighThresholdNeverFires | src/anomaly/layering_detector.cpp:86 | With a threshold of 8 or more no run ever fires. |
| LayeringRuns.FiresIffThresholdBelowEight | src/anomaly/layering_detector.cpp:75-96 | Some run raises an alert if and only if the threshold is at most 7. |
| LayeringRuns.ExactIffThresholdBelowEight | src/anomaly/layering_detector.cpp:53-97 | Alerts are exact in all ordered runs within capacity if and only if the threshold is at most 7. |
| LayeringRuns.AlertsAreExactSinceClaim | src/anomaly/layering_detector.cpp:28-97 | With any number of symbols an alert is exact for the large Adds of that symbol and side since the symbol last took its row. |
| LayeringRuns.EventsAreInputs | src/anomaly/layering_detector.cpp:55-60 | A run over arbitrary feed events leaves the table that its large Adds alone would leave. |
| LayeringRuns.FeedAlertsAreExact | src/anomaly/layering_detector.cpp:53-97 | The same from the feed: an event raises an alert if and only if it is an Add of at least the threshold quantity and more than the count threshold of the times of such Adds of its symbol and side, since that side's last alert and up to its own, lie no further back than the window; the alert has its side, threshold + 1 orders and the first of those times. |
| CancelSpikeDetector.CancelSpikeDetector.constructor | src/anomaly/cancel_spike_detector.cpp:12-19 | A new detector has an empty table of the configured size. |
| CancelSpikeDetector.CancelSpikeDetector.FindOrInsertRow | src/anomaly/cancel_spike_detector.cpp:28-48 | The masked probe loop finds or claims the specified row, on a full table the home row. |
| CancelSpikeDetector.CancelSpikeDetector.BucketCancel | src/anomaly/cancel_spike_detector.cpp:63-101 | One cancel drives the bucket machine of one row as specified. |
| CancelSpikeDetector.CancelSpikeDetector.ProcessWithTime | src/anomaly/cancel_spike_detector.cpp:54-102 | One event takes the specified step on the table; only Cancels touch it, and alert and counter are exact. |
| CancelSpikeDetector.CancelSpikeDetector.Reset | src/anomaly/cancel_spike_detector.cpp:104-112 | Reset leaves the table of a new detector. |
| CancelBuckets.BucketsPartitionIff | src/anomaly/cancel_spike_detector.cpp:63-100 | On any clock the buckets in order, closed ones and the open one, are exactly the cancels if and only if none was dropped, and fewer otherwise. |
| CancelBuckets.BucketsAreNarrow | src/anomaly/cancel_spike_detector.cpp:72-76 | All cancels of a bucket fall within one width of its opening, by the wrapping difference of the clock. |
| CancelBuckets.BucketsAreWide | src/anomaly/cancel_spike_detector.cpp:72-100 | Each closed bucket spans at least the configured width, and its rate times that span is its cancels times 10^9 nanoseconds. |
| CancelBuckets.RisingDropsNoneIff | src/anomaly/cancel_spike_detector.cpp:63-68 | On a clock that never goes back no cancel is dropped if and only if the first is not at clock value 0 or is the only one. |
| CancelBuckets.PositiveDropsNone | src/anomaly/cancel_spike_detector.cpp:63-68 | On a clock that never shows 0 no cancel is dropped, whether it goes back or not. |
| CancelBuckets.EntryFollowsBuckets | src/anomaly/cancel_spike_detector.cpp:63-100 | On any clock and from any inherited statistics, open count, window start and statistics are those of the partition. |
| CancelBuckets.CancelsConservedIff | src/anomaly/cancel_spike_detector.cpp:63-100 | On any clock closed buckets and open count hold every cancel if and only if none was dropped, and the statistics count the closed buckets. |
| CancelSpikeRuns.EveryCancelIsCountedIff | src/anomaly/cancel_spike_detector.cpp:54-102 | In every run with no more symbols than rows, the row of each symbol accounts for all of that symbol's cancels if and only if none was dropped. |
| CancelSpikeRuns.SpikesAreExact | src/anomaly/cancel_spike_detector.cpp:54-102 | On any clock and with no more symbols than rows: an alert is raised if and only if the cancel closes a bucket of its own symbol, that symbol has closed two or more before, their rates are not all equal, and the new rate less their mean, divided by any root of their variance, exceeds the threshold; it reports the rate, the mean and the variance. |
| CancelSpikeRuns.SpikesAreExactSinceClaim | src/anomaly/cancel_spike_detector.cpp:28-102 | With any number of symbols the same holds for the symbol's cancels since it last took its row, with the statistics it found there continued by its own rates. |
| CancelSpikeRuns.TakeoverInheritsStatistics | src/anomaly/cancel_spike_detector.cpp:28-48 | A new symbol takes a free row with blank statistics, or on a full table its home row with the rate statistics of the symbol it displaces. |
| CancelSpikeRuns.UnprejudicedIff | src/anomaly/cancel_spike_detector.cpp:79-98 | Statistics inherited with a row leave every later verdict as it would be without them if and only if they hold no closed bucket. |
| CancelSpikeRuns.OwnAlertsIff | src/anomaly/cancel_spike_detector.cpp:28-102 | After every run, a symbol without a row will get, fed on alone, the answers of a detector that saw nothing else if and only if some row is free or the row it takes over has no closed bucket. |
| CancelSpikeRuns.InheritedHistoryFires | src/anomaly/cancel_spike_detector.cpp:42-98 | A concrete run on one row in which a symbol is judged by another's history and raises an alert that it does not raise when fed alone. |
| LatencyHistogram.LatencyHistogram.Record | include/lattice/obs/latency_histogram.hpp:35-43 | Every bucket counts exactly the samples that belong to it. |
| LatencyHistogram.LatencyHistogram.Total | include/lattice/obs/latency_histogram.hpp:45-50 | The total is the number of samples since the last reset. |
| LatencyHistogram.LatencyHistogram.Percentile | include/lattice/obs/latency_histogram.hpp:54-70 | The loops compute the specified percentile of all samples. |
| LatencyHistogram.LatencyHistogram.Reset | include/lattice/obs/latency_histogram.hpp:76-79 | All buckets are empty. |
| LatencyHistogram.BucketBounds | include/lattice/obs/latency_histogram.hpp:35-43 | A sample lies below its bucket's bound and not below an earlier one. |
| LatencyHistogram.PercentileIsQuantile | include/lattice/obs/latency_histogram.hpp:54-70 | For 0 <= p < 1 the percentile is the least of the seven bounds from 1 us to 1 ms above element floor(p*n) of the sorted samples, or else 2^64 - 1. |
| LatencyHistogram.PercentileFromOne | include/lattice/obs/latency_histogram.hpp:63-69 | From p = 1 on the percentile is 2^64 - 1 whatever the samples. |
| LatencyHistogram.PercentileFromOneIff | include/lattice/obs/latency_histogram.hpp:63-69 | From p = 1 on that is the bound above the largest sample if and only if the largest sample is at least 1 ms. |
| LatencyHistogram.PercentileMonotone | include/lattice/obs/latency_histogram.hpp:54-70 | The percentile never falls when p rises. |
| MarketSimulator.MarketSimulator.constructor | include/lattice/sim/market_simulator.hpp:57-67 | A new simulator is in the initial state. |
| MarketSimulator.MarketSimulator.NextEvent | include/lattice/sim/market_simulator.hpp:72-97 | For every draw one call is one step of the transition relation. |
| MarketSimulator.MarketSimulator.ConsumeBurst | include/lattice/sim/market_simulator.hpp:162-165 | The next queued event is delivered and the clock moves to its time. |
| MarketSimulator.MarketSimulator.Pick | include/lattice/sim/market_simulator.hpp:167-191 | The kind of event follows the cap, the pending orders and the draw as specified. |
| MarketSimulator.MarketSimulator.DoAdd | include/lattice/sim/market_simulator.hpp:195-220 | An Add takes the next id and becomes pending. |
| MarketSimulator.MarketSimulator.DoCancel | include/lattice/sim/market_simulator.hpp:222-233 | A Cancel removes one pending order and names it; without one an Add is made. |
| MarketSimulator.MarketSimulator.DoModify | include/lattice/sim/market_simulator.hpp:235-249 | A Modify rescales one pending order and names it; without one an Add is made. |
| MarketSimulator.MarketSimulator.FillBurst | include/lattice/sim/market_simulator.hpp:252-274 | The queue is a time-sorted permutation of the Adds drawn. |
| MarketSimulator.MarketSimulator.Reset | include/lattice/sim/market_simulator.hpp:110-126 | The state is the initial one again. |
| MarketSimulator.OrderQty | include/lattice/sim/market_simulator.hpp:298-302 | Drawn sizes end in [1, 1000000]. |
| MarketSimulator.OrderPrice | include/lattice/sim/market_simulator.hpp:207-212 | Prices are at least one tick. |
| MarketSimulator.ModifiesOverflowIff | include/lattice/sim/market_simulator.hpp:242-244 | Some order as drawn passes 32 bits after n Modifies if and only if n is at least 21. |
| SimulatorFeed.EmitAddKeepsBook | include/lattice/sim/market_simulator.hpp:195-220 | An Add keeps pending orders, live orders of the feed and all counts in agreement. |
| SimulatorFeed.EmitCancelKeepsBook | include/lattice/sim/market_simulator.hpp:222-233 | So does a Cancel. |
| SimulatorFeed.EmitModifyKeepsBook | include/lattice/sim/market_simulator.hpp:235-249 | So does a Modify. |
| SimulatorFeed.SortKeepsFeed | include/lattice/sim/market_simulator.hpp:269-273 | Sorting a burst by time keeps the feed well formed, with the same orders live. |
| SimulatorFeed.NextKeepsInv | include/lattice/sim/market_simulator.hpp:72-97 | One call delivers the next generated event and keeps the invariant between state, queue, clock and everything generated. |
| SimulatorFeed.FeedIsWellFormed | include/lattice/sim/market_simulator.hpp:72-97 | For every sequence of draws the delivered feed has unique ids, every Cancel and Modify refers to a delivered Add of the same symbol, side and price not cancelled in between, quantities and prices are positive, and time never runs backwards. |
| SimulatorFeed.FeedConserved | include/lattice/sim/market_simulator.hpp:105-107 | The total generated is delivered plus still queued, adds less cancels are the orders pending, the counters count the events of their kind, and queued events are not in the past. |
| SimulatorFeed.CapHoldsBetweenBursts | include/lattice/sim/market_simulator.hpp:167-172 | A call takes a symbol above the larger of its count and the cap if and only if a burst is due that is larger than the room left. |
| SimulatorFeed.BurstIgnoresCap | include/lattice/sim/market_simulator.hpp:252-267 | A concrete first call that leaves two orders pending under a cap of one. |
| SimulatorCalls.RoundIsNearest | include/lattice/sim/market_simulator.hpp:210 | Rounding gives the nearest integer, halves going away from zero. |
| SimulatorCalls.DrainingCall | include/lattice/sim/market_simulator.hpp:73-75 | While a burst is queued a call delivers its next event, at its time, and changes nothing else. |
| SimulatorCalls.ArrivalMoves | include/lattice/sim/market_simulator.hpp:80-95 | Any other call takes the next symbol in turn and moves that symbol's next burst to one period after the arrival exactly when one is due. |
| SimulatorCalls.SingleEvent | include/lattice/sim/market_simulator.hpp:167-249 | A call without a burst makes one event for the symbol in turn at the arrival time: a Cancel with orders pending at the cap or a draw below the cancel share, a Modify with a draw in the modify share, else an Add; with the order drawn, its price, side and size, and the pending orders that follow from it. |
| SimulatorCalls.BurstCall | include/lattice/sim/market_simulator.hpp:252-274 | A call with a burst due delivers the earliest of its Adds and queues the rest by time; each has the next id, the price and size drawn after the mid price has moved on, and the arrival time plus its jitter, and all are pending at once. |
| SimulatorCalls.BurstIsShort | include/lattice/sim/market_simulator.hpp:256-264 | A burst has between the least and the greatest number of orders configured, all within one millisecond of the arrival. |
| SimulatorCalls.SymbolsTakeTurns | include/lattice/sim/market_simulator.hpp:83-84 | In every run the event of an arrival belongs to the symbol given by the number of arrivals before it, modulo 2^32 and then modulo the number of symbols. |
| SimulatorCalls.BurstsKeepSchedule | include/lattice/sim/market_simulator.hpp:87-93 | In every run an arrival brings a burst if and only if it comes one period or more after the start and after the last arrival that brought its symbol one. |
| MachineInts.MaskIsMod | include/lattice/shm/shm_layout.hpp:36-43 | For a power of two n, by the program's own test, masking with n - 1 is the remainder modulo n. |
| Circular.NextByMask | src/anomaly/anomaly_detector.cpp:119 | Adding one and masking steps to the next slot round the table. |

## Left out

- Floating point: prices, signals and statistics are reals; rounding, NaN, infinities and `-ffast-math` are not modelled.
- Square roots: a standard deviation appears as its square, and alerts keep deviation and variance where the program stores the z-score.
- `shm_open`, `ftruncate`, `mmap`, `fstat`, `shm_unlink`, the mapping of errno and `is_healthy`: the model starts from a mapped region.
- A writer restart that zeroes the region while a reader is inside `try_read`: the code has no protocol for it; initialisation is modelled on a fresh or quiescent region.
- ShmProtocol.StepKeepsInv: a `reattach` is modelled as starting while the consumer is idle, with header validation treated separately in `ShmHeader`.
- ShmHeader.ValidationIsSafe: the zeroing by `memset` is taken field by field and covers the header and index words; the slots it also zeroes are part of `ShmChannel.Segment.InitHeader`.
- Slot words: an element is a list of 64-bit words copied in any order; sub-word copies are not modelled.
- Progress of `write_blocking`: each side always has a step to take, but no scheduler is assumed, so termination of the spin is not claimed.
- Counters other than the two ring indices (alerts, orders tracked, statistics counts, cancel counts, histogram buckets, simulator ids, times and totals) are unbounded.
- Layering and cancel-spike rows and the table slots are values in arrays, so returning a pointer into the table is modelled as returning an index.
- `std::map` as a balanced tree: the two sides of the book are maps with an order-based first element.
- `std::sort` is any algorithm that returns a sorted permutation; the insertion sort in the model stands for it.
- MarketSimulator.MarketSimulator.DoModify: the new quantity is unbounded here, while the program converts it to 32 bits, which is undefined once it reaches 2^32; that takes at least 21 Modifies of one order (`MarketSimulator.ModifiesOverflowIff`).
- MarketSimulator.MarketSimulator.NextEvent: every draw is a parameter restricted to the range of its distribution; the generator, its seed and the shape of the distributions are not modelled.
- Configurations the program cannot run with (a table of size 0, a latency window of size 0, no symbols, a burst range that is empty, a tick of size 0) are excluded.
- CancelSpikeDetector.CancelSpikeDetector.ProcessWithTime: excluded is the one call that divides by zero, a cancel at the clock value that opened its bucket under a bucket width of 0; the program goes on with an infinite rate there.
- CancelSpikeDetector.CancelSpikeDetector.BucketCancel: the same call is excluded.
- CancelSpikeRuns.SpikesAreExact: whole runs are taken with a positive bucket width, for the same reason.
- CancelSpikeRuns.OwnAlertsIff: the cancel count of a bucket is unbounded here and 32 bits wide in the program, and continuations may use any clock.
- LatencyHistogram.LatencyHistogram.Percentile: a negative p is excluded, since its conversion to an unsigned integer is undefined; histogram atomics are modelled for one thread.
- LayeringRuns.AlertsAreExact: needs clock values that never go back; a clock that goes back makes the unsigned age wrap.
- Decoding of the payload bytes (`feed_decoder.hpp`): events are taken as decoded.
- `BurstDetector` and `SymbolScorer`: they repeat the per-symbol table with simpler updates per entry.
- `QueueDepthTracker`, `Watchdog`, `print_report`, clocks, configuration parsing, benchmarks and tools.
