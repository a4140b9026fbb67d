# Streaming trigger algorithms, modelled and proved in Dafny

Trigger primitives (hits on readout channels) arrive one at a time; the algorithms here keep mutable state and
now and then emit a trigger activity, or, from activities, a trigger candidate. The project models three families
of them and proves what they compute.

**Incremental DBSCAN** (`Graph`, `Hits`, `Clusters`, `ClusterGrowth`, `ClusterMoves`, `ClusterInvariant`,
`Placement`, `Stream`, `Finality`, `Exactness`, `ExactPlacement`, `Components`, `Sharpness`, `CoreHits`). The
specification is a batch graph problem: hits are points, joined when closer than eps. `Clusters` and `Stream` say what one arrival does
to the pool of hits, the map of live clusters and the list of hits held, as functions on values; `Run` folds them
over a run. The main results are statements over all time-ordered runs: the clusters are exactly the large connected
components if and only if minPts <= 3; each is handed out once, complete, and never changes afterwards; dropping
old hits cannot be noticed; no lookup of a cluster by index fails. `IncrementalDbscan` is the object that the
library has, with fields that its methods update in loops; each method is proved against the function that
specifies it, so that the results about runs hold of the object. `DbscanMaker` turns clusters into activities, and
for minPts <= 3 those it emits over its life are over exactly the complete large components, one for each; what
closeness and completeness are in ticks and channels is said without the clusterer's scaled times. `CoreHits` settles
the law of DBSCAN that every core hit is in a cluster: it holds if and only if minPts <= 3 or eps <= 1.

**Sliding windows** (`SlidingWindows`, `WindowTests`, `TPWindows`, `AdcSimpleWindow`, `AdjacencyTrigger`,
`HorizontalMuon`, `TAWindows`, `CandidateWindows`, `CandidateMaker`). The running sum, channel counts and start time
agree with what one would recompute from the list, and the triggers, which only look at the window they hold, agree
with brute force over all intervals of the window length. `SlidingWindows` proves the second once, for every test that stays true when
primitives are added; `WindowTests` proves four such tests (ADC sum, number of channels, adjacency without tolerance,
a long stretch of consecutive channels), and three activity makers instantiate it. With tolerance adjacency is no
such test, and `AdjacencyTrigger` proves that the trigger on it then misses intervals that brute force finds; what the
maker for horizontal muons still promises lies between two tests. `Prescales` counts triggers in 16 bits: while they
fit, n / prescale of n triggers pass.

**Searches for runs of adjacent channels** (`GreedyRuns`, `MissedChannels`, `RunMonotonicity`, `ChannelLists`, `Adjacency`,
`AdjacentRuns`, `Extraction`, `ChannelAdjacency`, `MichelElectron`, `ChannelDistance`). `GreedyRuns` is the reference: a
strictly increasing list of channels, cut greedily into runs. The three loops of the library, with their duplicates, wrap-around indexing and
tolerance counters, are proved to compute on any window what the reference says of its distinct channels.
`RunMonotonicity` settles for which tolerances the longest run behaves as one would expect: more hits never shorten
it if and only if the tolerance is 0, and a larger tolerance never does for three families of pairs and no others.

`Activities` finds the span of an activity, `Collections` counts elements over several lists, `TriggerTypes` has the
primitives and the unsigned arithmetic.

Times are unsigned 64-bit counts of ticks. The documentation of the library calls them signed (`README.md:114`); the
subtractions in the code (`src/TPWindow.cpp:54`) only make sense unsigned, and that is what is modelled. Where an
argument needs times below 2^63, as signed times that are not negative would be, the contract says so.

Where code and comments disagree the model follows the code:

- `src/TriggerActivityMakerHorizontalMuon.cpp:203-207` allows up to `adj_tolerance` missing hits in a run. The code compares
  the tolerance before it counts a step, and counts the whole step: a run may miss 4 + 4 (tolerance - 1) / 5 channels,
  rounded down, and does on some lists (`MissedChannels.MissedExactly`), 5 at the default tolerance of 3. The comment
  holds if and only if the tolerance is 0 or at least 12 (`MissedChannels.MissedWithinTolerance`). The channel adjacency
  maker counts one less for each step and may miss tolerance + 3. That a gap has at most 4 missing channels holds, and
  so does what lines 225-228 say, that no more gaps are skipped than the tolerance (`MissedChannels.GapsWithinTolerance`).
- `src/TriggerActivityMakerHorizontalMuon.cpp:236` marks the end of the list by channel 0 instead of position 0. So the
  last run is not closed when all hits are on one channel other than 0, and the adjacency is then 0.
- `src/TriggerActivityMakerHorizontalMuon.cpp:49-53` speaks of a fresh window with the current primitive after a trigger. A
  trigger that the prescale drops leaves the window alone and loses the primitive.
- The guard at `src/TriggerActivityMakerDBSCAN.cpp:27` never fires, since `m_prev_timestamp` is never assigned. That hits
  come in time order is left to the caller, as `include/triggeralgs/dbscan/dbscan.hpp:75-76` says.
- `src/TAWindow.cpp:23` announces a binary search; the code scans.

## Model

| member | source | states |
|---|---|---|
| `Sharpness.ExactUpToThree` | src/dbscan/dbscan.cpp:152-292 | For every minPts: the clusters held or handed out are, for every eps and on all time-ordered inputs, exactly the connected components with at least minPts hits of the graph "distance squared below eps squared", if and only if minPts <= 3 |
| `Sharpness.ExactForSettings` | src/dbscan/dbscan.cpp:152-292 | The same for each setting: with given minPts and eps, clusters are the large components on all time-ordered inputs if and only if minPts <= 3 or eps is 0 |
| `Components.ClustersAreComponents` | src/dbscan/dbscan.cpp:152-292 | For minPts <= 3, after any time-ordered run and any trimming, a set of hits is that of a live or handed-out cluster exactly when it is a connected component with at least minPts members |
| `Components.EachHitInOneCluster` | src/dbscan/dbscan.cpp:170-262 | For minPts <= 3 no hit is in two clusters, live or handed out, and no cluster is handed out twice |
| `Components.HandedOutWhenComplete` | src/dbscan/dbscan.cpp:265-291 | For minPts <= 3 a large component has been handed out exactly when the latest hit of all is more than eps after each of its hits, and after time 0 |
| `Components.RunExact` | src/dbscan/dbscan.cpp:152-292 | For minPts <= 3 every run keeps: two neighbours have the same cluster number unless both have none, core hits have one, every number is that of a live cluster or of one handed out that holds all its hits |
| `Components.NumberIsComponent` | src/dbscan/dbscan.cpp:152-262 | The hits that carry the number of some hit are exactly the component of that hit |
| `Components.NumberIsLarge` | src/dbscan/dbscan.cpp:179-196 | A numbered hit lies in a component of at least minPts hits |
| `Components.UnclusteredIsSmall` | src/dbscan/dbscan.cpp:179-196 | A hit without a number lies in a component of fewer than minPts hits |
| `Sharpness.ChainIsNoCluster` | src/dbscan/dbscan.cpp:183-184 | For every minPts >= 4 and every eps above 0 a chain of minPts hits, each next to the one before, is a large component that never becomes a cluster |
| `Sharpness.NothingWithoutReach` | src/dbscan/dbscan.cpp:183-262 | With eps 0 and minPts >= 4 there are neither large components nor clusters |
| `Sharpness.NoCoreNoCluster` | src/dbscan/dbscan.cpp:183-262 | Where no hit has minPts - 1 neighbours, a run holds and hands out no cluster |
| `CoreHits.CoresClusteredExactly` | src/dbscan/dbscan.cpp:170-262 | Every hit with at least minPts - 1 close hits is in a cluster, after every time-ordered run, if and only if minPts <= 3 or eps <= 1 |
| `CoreHits.CoreFlagMeans` | src/dbscan/Hit.cpp:64-71 | After any run the core flag of a hit says exactly whether at least minPts - 1 hits are close to it |
| `CoreHits.RunNumbersCores` | src/dbscan/dbscan.cpp:170-262 | For every minPts and eps <= 1 every core hit has a cluster number |
| `CoreHits.ForkLeavesOneOut` | src/dbscan/dbscan.cpp:241-262 | For minPts >= 4 and eps above 1 a hit between two that become core with it, not close to each other, leaves one of them without a cluster |
| `Stream.TrimmingInvisible` | src/dbscan/dbscan.cpp:294-317 | For every minPts, dropping old hits after any choice of arrivals changes neither the clusters handed out, nor their order, nor the clusters that stay live |
| `Stream.ArriveIgnoresOldHits` | src/dbscan/dbscan.cpp:11-27 | Two states that differ only in the old hits they still hold take any later hit in the same way |
| `Stream.TrimCorrect` | src/dbscan/dbscan.cpp:294-317 | Dropping hits keeps the invariant; every live cluster has a first hit to look at, and every hit dropped is out of reach of all hits to come |
| `Stream.TrimKeepsRecent` | src/dbscan/dbscan.cpp:294-317 | Dropping hits leaves exactly those at most ten times eps before some hit of a live cluster, or before the latest hit if there is no cluster |
| `Stream.Run` | src/dbscan/dbscan.cpp:152-317 | Every state that a run reaches satisfies the invariant, for every minPts: exact neighbour lists and core flags, live clusters sorted, distinct, connected, and indices that name a live cluster holding the hit or belong to a hit out of reach |
| `Stream.ArriveCorrect` | src/dbscan/dbscan.cpp:152-292 | One arrival keeps the invariant, and every cluster handed out is non-empty, well formed, gone from the live ones and out of reach of later hits |
| `Stream.ArriveReady` | src/dbscan/dbscan.cpp:170-205 | Before a hit is placed, every cluster index that it will look up names a live cluster |
| `Stream.LinkCorrect` | src/dbscan/dbscan.cpp:168 | Linking a new hit against the hits held makes all neighbour lists and core flags exact for all hits ever added |
| `Stream.SweepCorrect` | src/dbscan/dbscan.cpp:265-291 | The sweep removes exactly the complete clusters and hands out, in order of number, exactly those of them that hold hits |
| `Stream.PlacedCoreFlags` | src/dbscan/Hit.cpp:64-71 | Once a hit is placed, the core flag of every hit says exactly whether it has at least minPts - 1 neighbours |
| `Stream.StepCorrect` | src/TriggerActivityMakerDBSCAN.cpp:32-72 | An arrival, followed by dropping old hits or not, is always possible and keeps the invariant |
| `Finality.CompletedAreFinished` | src/dbscan/dbscan.cpp:271-286 | For every minPts, a cluster handed out stays, through the rest of any run, sorted by time, duplicate-free, in one component and out of reach of the latest hit |
| `Finality.HandedOutIsFinal` | include/triggeralgs/dbscan/dbscan.hpp:29-31 | No hit of a cluster that has been handed out gains a neighbour, whatever hits follow |
| `Finality.CompletedGrows` | src/dbscan/dbscan.cpp:282-284 | A longer run only adds to the list of clusters handed out |
| `Finality.PlacedIndices` | src/dbscan/dbscan.cpp:186-191 | New clusters get new numbers; no live cluster disappears when a hit is placed |
| `Placement.PlaceCorrect` | src/dbscan/dbscan.cpp:170-262 | For every minPts, placing a hit has one of three outcomes (it joins and merges the clusters it touches, one cluster starts, nothing), each with the exact set of hits concerned, and keeps the invariant |
| `Placement.TouchedIsLive` | src/dbscan/dbscan.cpp:204-235 | Every cluster looked up when a hit is placed is live, so both lookup assertions hold |
| `Placement.JoinCorrect` | src/dbscan/dbscan.cpp:197-239 | The cluster of lowest number takes in exactly the new hit, what its neighbours bring and the hits of the other clusters touched, which are emptied |
| `Placement.StartAtNeighboursCorrect` | src/dbscan/dbscan.cpp:241-262 | The last case starts at most one cluster, at a core neighbour in no cluster, and only if the new hit is in none |
| `Placement.TouchedConnected` | src/dbscan/dbscan.cpp:170-177 | Every hit of a cluster that is touched lies in the component of the new hit |
| `Placement.BroughtConnected` | src/dbscan/dbscan.cpp:214-227 | Every hit that neighbours bring lies in the component of the new hit |
| `ClusterGrowth.FloodCorrect` | src/dbscan/dbscan.cpp:94-122 | The flood fill takes in only hits that were in no cluster, each reached from the stack through core hits, and on return no core hit it took in has a neighbour in no cluster |
| `ClusterInvariant.FloodConnected` | src/dbscan/dbscan.cpp:94-122 | The flood fill stays in the component of the hits it starts from |
| `ClusterMoves.StartClusterCorrect` | src/dbscan/dbscan.cpp:186-192 | A new cluster holds exactly the hits taken in by the flood fill from its seed; nothing else changes |
| `ClusterMoves.AbsorbCorrect` | src/dbscan/dbscan.cpp:214-227 | Absorbing takes in exactly the neighbours in no cluster and all neighbours of those that have just become core |
| `ClusterMoves.MergeCorrect` | src/dbscan/dbscan.cpp:232-238 | Merging moves exactly the hits of the clusters named, leaves those empty and complete, and touches no other cluster |
| `ClusterMoves.StealHitsTook` | src/dbscan/dbscan.cpp:75-91 | Stealing hits moves all hits of the other cluster, with index and latest time, and empties it |
| `ClusterInvariant.TookKeepsPlacing` | src/dbscan/dbscan.cpp:197-239 | Growing and merging keep clusters connected and indices sound |
| `ClusterInvariant.StartedKeepsPlacing` | src/dbscan/dbscan.cpp:179-196 | Starting a cluster keeps clusters connected and indices sound |
| `Hits.InsertCorrect` | src/dbscan/Hit.cpp:15-33 | Inserting gives a list sorted by time without duplicates whose members are those before and the new hit |
| `Hits.LinkPair` | src/dbscan/Hit.cpp:59-75 | Linking two hits adds each to the list of the other and changes nothing else but their core flags |
| `Hits.ScanFindsAllNeighbours` | src/dbscan/dbscan.cpp:11-27 | The pruned reverse scan equals brute force: after it, for any two hits ever added, each is in the list of the other exactly when they are distinct and closer than eps; lists stay sorted and duplicate-free |
| `Hits.ScanIgnoresOutOfReach` | src/dbscan/dbscan.cpp:15-21 | Holding or dropping hits out of reach makes no difference to the scan |
| `Graph.AdjacentInTime` | src/dbscan/dbscan.cpp:18-21 | Hits closer than eps are closer than eps in time, so the scan may stop |
| `Graph.AdjacentSymmetric` | include/triggeralgs/dbscan/Hit.hpp:113-116 | Closeness is symmetric |
| `Graph.ClosedSetHoldsConnected` | include/triggeralgs/dbscan/Hit.hpp:113-116 | A set of hits closed under closeness holds everything connected to a member |
| `Graph.AdjacentMeans` | include/triggeralgs/dbscan/Hit.hpp:113-116 | In coordinates: two distinct hits are close exactly when the squares of their differences in time and in channel add up to less than eps squared |
| `Graph.AdjacentByAxis` | include/triggeralgs/dbscan/Hit.hpp:113-116 | Close hits are closer than eps in time and in channel; hits on one channel, or at one time, are close exactly when they are closer than eps in the other |
| `Exactness.NeighbourCounts` | src/dbscan/dbscan.cpp:222 | An arrival gives a hit at most one more neighbour and takes none away |
| `Exactness.LinkedIsAlmostExact` | src/dbscan/dbscan.cpp:168 | For minPts <= 3, what is exact before an arrival fails after linking only around the new hit |
| `ExactPlacement.JoinedExact` | src/dbscan/dbscan.cpp:197-239 | For minPts <= 3, joining restores exactness |
| `ExactPlacement.StartedAtExact` | src/dbscan/dbscan.cpp:179-262 | For minPts <= 3, starting a cluster restores exactness |
| `ExactPlacement.IdleExact` | src/dbscan/dbscan.cpp:194-196 | For minPts <= 3, doing nothing is right when no cluster is touched and no hit is core |
| `IncrementalDbscan.IncrementalDBSCAN.AddPoint` | src/dbscan/dbscan.cpp:125-133 | The object is after each hit where the run over all its hits leads, and hands out what the run hands out |
| `IncrementalDbscan.IncrementalDBSCAN.TrimHits` | src/dbscan/dbscan.cpp:294-317 | Of the hits held exactly those at most ten times eps before a hit of a live cluster (the latest hit, if there is none) stay, and the object stays on its run |
| `IncrementalDbscan.IncrementalDBSCAN.AddHitToState` | src/dbscan/dbscan.cpp:152-292 | The body of add_hit computes the arrival step |
| `IncrementalDbscan.IncrementalDBSCAN.constructor` | include/triggeralgs/dbscan/dbscan.hpp:60-69 | A new object holds nothing and is on the empty run |
| `IncrementalDbscan.IncrementalDBSCAN.PlaceHit` | src/dbscan/dbscan.cpp:170-262 | Finding the clusters touched, starting, joining and merging compute the placement |
| `IncrementalDbscan.IncrementalDBSCAN.NeighboursSorted` | src/dbscan/dbscan.cpp:11-27 | The reverse scan with its two time cuts computes the linking |
| `IncrementalDbscan.IncrementalDBSCAN.AddPotentialNeighbour` | src/dbscan/Hit.cpp:59-75 | Links two hits both ways, and says whether they are close |
| `IncrementalDbscan.IncrementalDBSCAN.AddHitTo` | src/dbscan/dbscan.cpp:62-72 | Adds a hit to a cluster, sets its index and the latest time |
| `IncrementalDbscan.IncrementalDBSCAN.StealHitsFrom` | src/dbscan/dbscan.cpp:75-91 | Moves all hits of one cluster to another |
| `IncrementalDbscan.IncrementalDBSCAN.ClusterReachable` | src/dbscan/dbscan.cpp:94-122 | The worklist loop, which ends because hits in no cluster or the stack get fewer, computes the flood fill |
| `IncrementalDbscan.IncrementalDBSCAN.ClustersNeighbouring` | src/dbscan/dbscan.cpp:170-177 | Collects exactly the clusters of core neighbours |
| `IncrementalDbscan.IncrementalDBSCAN.AbsorbAll` | src/dbscan/dbscan.cpp:214-227 | The loop over neighbours absorbs them |
| `IncrementalDbscan.IncrementalDBSCAN.MergeInto` | src/dbscan/dbscan.cpp:232-238 | The loop over touched clusters merges them in increasing order |
| `IncrementalDbscan.IncrementalDBSCAN.StartAtOneOf` | src/dbscan/dbscan.cpp:241-262 | The last-case loop |
| `IncrementalDbscan.IncrementalDBSCAN.SweepCompleted` | src/dbscan/dbscan.cpp:265-291 | The erase loop over the cluster map |
| `IncrementalDbscan.IncrementalDBSCAN.EarliestTime` | src/dbscan/dbscan.cpp:297-310 | The earliest first hit of any live cluster, or the latest time if there is no cluster |
| `IncrementalDbscan.InsertHit` | src/dbscan/Hit.cpp:15-33 | The insertion loop from the latest hit computes the insertion |
| `IncrementalDbscan.StepOfRun` | src/dbscan/dbscan.cpp:152-292 | A hit added to a state on a run, but for old hits still held, takes the run one step further |
| `DbscanMaker.MakerFindsComponents` | src/TriggerActivityMakerDBSCAN.cpp:24-73 | For minPts <= 3, the clusters that the maker holds or has had handed out are exactly the large components of its hits |
| `DbscanMaker.EmittedAreComponents` | src/TriggerActivityMakerDBSCAN.cpp:24-73 | For minPts <= 3, the activities emitted over the whole life of the maker are over exactly the large components that are complete: one activity each, over each of its hits once, no two with a hit in common |
| `Components.HandedOutAreComplete` | src/dbscan/dbscan.cpp:265-291 | For minPts <= 3 the clusters handed out are exactly the large components whose hits, and time 0, are more than eps before the latest hit |
| `DbscanMaker.TriggerActivityMakerDBSCAN.Process` | src/TriggerActivityMakerDBSCAN.cpp:24-73 | One activity for each cluster handed out, over exactly the primitives of its hits, with their exact span and ADC sum; only recent hits are held afterwards |
| `DbscanMaker.TriggerActivityMakerDBSCAN.AddPrimitive` | src/dbscan/dbscan.cpp:136-149 | Each primitive becomes a hit at its channel and at its time since the first primitive with a non-zero time |
| `DbscanMaker.MakeActivity` | src/TriggerActivityMakerDBSCAN.cpp:37-70 | The activity covers exactly the times and channels of its inputs and adds up their ADC counts |
| `DbscanMaker.HitsGrow` | src/dbscan/dbscan.cpp:139-144 | Primitives in time order become hits in time order |
| `DbscanMaker.GraphInTicks` | src/dbscan/dbscan.cpp:139-144 | The hits of two primitives are close exactly when, with a channel counted as a hundred ticks, the primitives are closer than a hundred times eps; hits are complete exactly when they and the first primitive are more than a hundred times eps ticks before the latest |
| `DbscanMaker.HitInTicks` | src/dbscan/dbscan.cpp:144 | A hit stands on the channel of its primitive, a hundredth of its ticks after the first non-zero time |
| `DbscanMaker.HitsApart` | src/dbscan/dbscan.cpp:144 | Between two primitives a hundred units of hit time are one tick |
| `TPWindows.TPWindow.Add` | src/TPWindow.cpp:19-27 | Appends the primitive; ADC sum modulo 2^32 and channel counts again equal those recomputed from the list |
| `TPWindows.TPWindow.Clear` | src/TPWindow.cpp:29-36 | Empties the window and zeroes its start |
| `TPWindows.TPWindow.NChannelsHit` | src/TPWindow.cpp:38-42 | The number of distinct channels in the window, in 16 bits |
| `TPWindows.TPWindow.Move` | src/TPWindow.cpp:44-76 | Removes the leading primitives outside the window length, appends the new one, and leaves sum, counts and start in agreement with the list |
| `TPWindows.TPWindow.Reset` | src/TPWindow.cpp:78-94 | The window holds just the primitive |
| `TPWindows.CountsAdd` | src/TPWindow.cpp:23-24 | Incrementing a channel count is what appending a primitive does to the recomputed counts |
| `TPWindows.CountsRemoveFirst` | src/TPWindow.cpp:51-59 | Decrementing a count, and dropping the channel at zero, is what removing the first primitive does to them |
| `TPWindows.SmallWindowFits` | src/TPWindow.cpp:38-42 | Fewer than 2^16 primitives keep all 16-bit counts exact |
| `TriggerTypes.Wrap32Means` | src/TPWindow.cpp:24 | Sums in unsigned 32 bits are right up to multiples of 2^32 |
| `TriggerTypes.Wrap64Means` | src/TAWindow.cpp:19 | Sums in unsigned 64 bits are right up to multiples of 2^64 |
| `SlidingWindows.WithinMeans` | src/TPWindow.cpp:54 | The test of the window length, in unsigned 64-bit arithmetic: earlier times are within it if the difference is less, later ones only where that wraps around |
| `SlidingWindows.MovedKeepsTheRecent` | src/TPWindow.cpp:44-76 | For primitives in time order, sliding leaves exactly those closer than the window length to the new one, then the new one |
| `SlidingWindows.WindowIsSuffix` | src/TriggerActivityMakerADCSimpleWindow.cpp:29-55 | After any arrivals in time order without a trigger, the window is a suffix of them |
| `SlidingWindows.TriggerMissesNothing` | src/TriggerActivityMakerADCSimpleWindow.cpp:29-55 | A trigger that looks only at the window it holds fires exactly when brute force over all intervals that start at a primitive since the reset says so, for any test that stays true when primitives are added |
| `SlidingWindows.QuietIsNoHeavyInterval` | src/TriggerActivityMakerADCSimpleWindow.cpp:29-55 | There was no trigger exactly when brute force finds nothing at any arrival: the first trigger comes with the first primitive that closes a heavy interval |
| `SlidingWindows.FiresSoundly` | src/TriggerActivityMakerADCSimpleWindow.cpp:29-55 | Whatever the test, a trigger comes only when an interval for which it holds is over |
| `SlidingWindows.SureIntervalFires` | src/TriggerActivityMakerADCSimpleWindow.cpp:29-55 | Whatever the test, it comes with every interval that is over and passes a stronger test that stays true when primitives are added |
| `AdcSimpleWindow.TriggerActivityMakerADCSimpleWindow.Process` | src/TriggerActivityMakerADCSimpleWindow.cpp:23-62 | For time-ordered primitives and sums within 32 bits, an activity is made exactly when some interval of the window length that starts at a primitive since the reset is over and above the threshold; it holds all primitives of such an interval, and ends with the last of them; for all primitives, exactly when this one closes a window whose sum in 32 bits is above the threshold |
| `AdcSimpleWindow.TriggerActivityMakerADCSimpleWindow.ConstructTA` | src/TriggerActivityMakerADCSimpleWindow.cpp:79-103 | The activity has the inputs, start and sum of the window, and the end and channel of its last primitive |
| `WindowTests.HeavyIsMonotone` | src/TriggerActivityMakerADCSimpleWindow.cpp:45 | Adding primitives never undoes an ADC sum above the threshold |
| `AdcSimpleWindow.Window.Add` | include/triggeralgs/ADCSimpleWindow/TriggerActivityMakerADCSimpleWindow.hpp:32-37 | Appends and adds to the sum modulo 2^32; in a window that is not empty the sum still agrees with the list |
| `AdcSimpleWindow.Window.Move` | include/triggeralgs/ADCSimpleWindow/TriggerActivityMakerADCSimpleWindow.hpp:41-63 | Slides; sum and start agree with the list |
| `AdcSimpleWindow.Window.Reset` | include/triggeralgs/ADCSimpleWindow/TriggerActivityMakerADCSimpleWindow.hpp:64-74 | The window holds just the primitive |
| `HorizontalMuon.TriggerActivityMakerHorizontalMuon.Process` | src/TriggerActivityMakerHorizontalMuon.cpp:20-130 | What the arrival calls for and what it leaves, for all settings; for any combination of triggers with prescale 1, an activity only when a long pulse closes the window or brute force over all intervals finds one over a threshold, and always when a long pulse closes it or brute force finds one over the ADC or channel threshold or with a stretch of consecutive channels above the adjacency threshold; exactly when brute force finds one over a threshold, or a long pulse closes the window, if adjacency has no tolerance; of n triggers since construction, while n fits in 16 bits, every prescale-th makes an activity; an activity ends with the last of its inputs |
| `HorizontalMuon.TriggerActivityMakerHorizontalMuon.DecideOn` | src/TriggerActivityMakerHorizontalMuon.cpp:45-127 | The branch taken is the one that the ADC sum, distinct channels, adjacency and time over threshold call for |
| `HorizontalMuon.TriggerActivityMakerHorizontalMuon.Act` | src/TriggerActivityMakerHorizontalMuon.cpp:45-127 | The new window, count and activities; a trigger dropped by the prescale also drops the primitive |
| `WindowTests.ManyChannelsIsMonotone` | src/TriggerActivityMakerHorizontalMuon.cpp:72 | Adding primitives never undoes too many channels |
| `WindowTests.HighAdjacencyIsMonotone` | src/TriggerActivityMakerHorizontalMuon.cpp:86 | Without tolerance, adding primitives never undoes an adjacency above the threshold, the case of a single channel included |
| `AdjacencyTrigger.ExactWithoutTolerance` | src/TriggerActivityMakerHorizontalMuon.cpp:86 | For every tolerance of 16 bits, the adjacency trigger agrees with brute force on all streams in time order, windows and thresholds if and only if the tolerance is 0 |
| `AdjacencyTrigger.BurstIsMissed` | src/TriggerActivityMakerHorizontalMuon.cpp:86 | A stream on which brute force finds an interval over the threshold and the trigger does not: a burst, and a tick later one on the part of its channels that has a longer run |
| `WindowTests.LongStretchIsAdjacent` | src/TriggerActivityMakerHorizontalMuon.cpp:246-248 | Whatever the tolerance, a stretch of consecutive channels longer than a threshold of at least 1 takes the adjacency above it |
| `WindowTests.LongStretchIsMonotone` | src/TriggerActivityMakerChannelAdjacency.cpp:74-75 | Adding primitives never undoes a stretch of consecutive channels longer than the threshold |
| `HorizontalMuon.OverThresholdIsMonotone` | src/TriggerActivityMakerHorizontalMuon.cpp:45-127 | Adding primitives never undoes the thresholds of any combination of the ADC, channel and zero-tolerance adjacency triggers |
| `HorizontalMuon.SurelyOverIsOver` | src/TriggerActivityMakerHorizontalMuon.cpp:45-127 | What no tolerance can undo is over a threshold |
| `Prescales.TallyOneMore` | src/TriggerActivityMakerHorizontalMuon.cpp:55-58 | Counting one more trigger in 16 bits keeps the tally: of n triggers, while they fit in 16 bits, n / prescale have passed |
| `Prescales.PassMeans` | src/TriggerActivityMakerHorizontalMuon.cpp:57 | A trigger passes the prescale exactly when its count is a multiple of it |
| `Prescales.CountMeans` | src/TriggerActivityMakerHorizontalMuon.cpp:56 | The count is the number of triggers modulo 2^16 |
| `Activities.SpansEnd` | src/TriggerActivityMakerHorizontalMuon.cpp:172-187 | The activity ends at the latest end of an input where time over threshold counts, and else at the latest start |
| `Activities.Construct` | src/TriggerActivityMakerHorizontalMuon.cpp:163-198 | The bounds of the activity are those of its inputs, each reached |
| `Adjacency.CheckAdjacency` | src/TriggerActivityMakerHorizontalMuon.cpp:200-273 | For any order and multiplicity of hits: the longest greedy run over the distinct channels if and only if the hits are not all on one channel other than 0 |
| `Adjacency.WalkChannels` | src/TriggerActivityMakerHorizontalMuon.cpp:229-272 | The walk with wrap-around indexing and 16-bit counts computes that number |
| `Adjacency.AdjacencyIsLongest` | src/TriggerActivityMakerHorizontalMuon.cpp:236-238 | Any such result differs from the longest run exactly when the hits are all on one channel other than 0, and is then 0 |
| `Adjacency.AdjacencyMeans` | src/TriggerActivityMakerHorizontalMuon.cpp:200-273 | With at least two channels the result is the number of channels of some run that misses at most 4 + 4 (tolerance - 1) / 5 channels (rounded down) in at most half the tolerance (rounded up) gaps of at most 4 each, and no stretch of consecutive channels is longer; without tolerance the run is such a stretch |
| `RunMonotonicity.MoreHitsExactly` | src/TriggerActivityMakerHorizontalMuon.cpp:229-272 | More hits never make the longest run shorter if and only if the tolerance is 0, for both ways of counting a step |
| `RunMonotonicity.MoreToleranceExactly` | src/TriggerActivityMakerHorizontalMuon.cpp:252-258 | A larger tolerance never makes the longest run shorter if and only if the smaller one is 0, or they are equal, or they are 1 and 2 and whole steps are counted |
| `RunMonotonicity.FewerHitsLengthen` | src/TriggerActivityMakerHorizontalMuon.cpp:252-258 | For every tolerance above 0 there are two lists, one with all channels of the other and more, whose longest run is shorter |
| `RunMonotonicity.OneLikeTwo` | src/TriggerActivityMakerHorizontalMuon.cpp:252-258 | Where whole steps are counted, tolerances 1 and 2 give the same longest run |
| `GreedyRuns.ConsecutiveIsShort` | src/TriggerActivityMakerHorizontalMuon.cpp:246-248 | A stretch of consecutive channels lies within one run |
| `GreedyRuns.RunMissesFew` | src/TriggerActivityMakerHorizontalMuon.cpp:252-258 | With t of the tolerance left, a run misses at most 4 + 4 (t - 1) / 5 channels (rounded down) if whole steps are counted, t + 3 if one less is, and none if t is 0 |
| `MissedChannels.MissedExactly` | src/TriggerActivityMakerHorizontalMuon.cpp:203-207 | Those bounds are sharp for every tolerance and both ways of counting: runs miss at most m channels, on all lists, if and only if m is at least the bound |
| `MissedChannels.MissedWithinTolerance` | src/TriggerActivityMakerHorizontalMuon.cpp:203-207 | Runs miss no more channels than the tolerance, as the comment says, if and only if the tolerance is 0, or whole steps are counted and it is at least 12 |
| `MissedChannels.GapsExactly` | src/TriggerActivityMakerHorizontalMuon.cpp:225-228 | The sharp bound on the number of gaps in a run: half the tolerance, rounded up, if whole steps are counted, and else the tolerance |
| `MissedChannels.GapsWithinTolerance` | src/TriggerActivityMakerHorizontalMuon.cpp:225-228 | Runs never have more gaps than the tolerance, and fewer, on all lists, if and only if whole steps are counted and it is at least 2 |
| `MissedChannels.WidePathMisses` | src/TriggerActivityMakerHorizontalMuon.cpp:252-258 | For every tolerance there is a run that misses as many channels as the bound allows |
| `GreedyRuns.RunWithoutTolerance` | src/TriggerActivityMakerHorizontalMuon.cpp:254 | Without tolerance a run is a stretch of consecutive channels |
| `GreedyRuns.FirstLongCorrect` | src/TriggerActivityMakerChannelAdjacency.cpp:185-229 | The first long run is a run, those before it are short; if there is none, every run is short |
| `ChannelLists.DistinctListsChannels` | src/TriggerActivityMakerHorizontalMuon.cpp:217-221 | However primitives are ordered, the distinct channels of a sorted list of them are the same list |
| `ChannelLists.SortByChannel` | src/TriggerActivityMakerChannelAdjacency.cpp:170-174 | A permutation sorted by channel |
| `AdjacentRuns.CheckAdjacency` | src/TriggerActivityMakerChannelAdjacency.cpp:152-232 | The greedy run of lowest channels longer than the threshold, with one primitive of the window for each channel of it; empty if there is none |
| `AdjacentRuns.SearchSorted` | src/TriggerActivityMakerChannelAdjacency.cpp:185-231 | The search loop finds that run |
| `AdjacentRuns.FirstLongMeans` | src/TriggerActivityMakerChannelAdjacency.cpp:211-222 | The run has strictly increasing channels in steps of at most 5, missing at most tolerance + 3; it is empty exactly when no greedy run exceeds the threshold, and then no stretch of consecutive channels does |
| `Extraction.RunsAreDisjoint` | src/TriggerActivityMakerChannelAdjacency.cpp:60-71 | No two runs extracted share a channel |
| `Extraction.RunsAreLong` | src/TriggerActivityMakerChannelAdjacency.cpp:74-75 | Each run has more channels than the threshold, one primitive for each, adjacent |
| `Extraction.ExtractionConserves` | src/TriggerActivityMakerChannelAdjacency.cpp:56-74 | The runs and what is left fit in the closed window together, with multiplicity |
| `Extraction.LeftMeans` | src/TriggerActivityMakerChannelAdjacency.cpp:60-71 | What is left are exactly the primitives on no channel of any run |
| `Extraction.StretchIsCaught` | src/TriggerActivityMakerChannelAdjacency.cpp:53-85 | Every stretch of consecutive channels with hits longer than the threshold has a channel in some run |
| `Extraction.NoStretchLeft` | src/TriggerActivityMakerChannelAdjacency.cpp:83-84 | When the loop stops no stretch of consecutive channels with hits is longer than the threshold |
| `Extraction.OneMoreFound` | src/TriggerActivityMakerChannelAdjacency.cpp:74-75 | Each success removes at least one primitive, so the loop ends |
| `ChannelAdjacency.TriggerActivityMakerChannelAdjacency.Process` | src/TriggerActivityMakerChannelAdjacency.cpp:20-96 | What a primitive does to window and count; a closing primitive has all runs extracted; for primitives in time order, if an interval of the window length that starts at a primitive since the last run is over and holds a stretch of consecutive channels longer than the threshold, the arrival extracts a run; over the whole life of the maker, activities and window together hold each primitive no more often than it arrived, and start, sum and counts agree with the list |
| `ChannelAdjacency.StepExtracts` | src/TriggerActivityMakerChannelAdjacency.cpp:30-85 | A closed window with a long stretch of consecutive channels yields a run |
| `ChannelAdjacency.TriggerActivityMakerChannelAdjacency.ExtractRuns` | src/TriggerActivityMakerChannelAdjacency.cpp:50-85 | The extract-and-retry loop ends, extracts runs until there is none, and makes activities of those the prescale keeps |
| `ChannelAdjacency.TriggerActivityMakerChannelAdjacency.Refill` | src/TriggerActivityMakerChannelAdjacency.cpp:60-71 | The window is refilled with the primitives on no channel of the last run |
| `ChannelAdjacency.TriggerActivityMakerChannelAdjacency.CountRun` | src/TriggerActivityMakerChannelAdjacency.cpp:77-82 | Counts the run in 16 bits and makes an activity of it if the count is a multiple of the prescale |
| `ChannelAdjacency.ActivitiesShareNothing` | src/TriggerActivityMakerChannelAdjacency.cpp:50-88 | When no two arrivals are alike, no two activities made over any run have a primitive in common |
| `ChannelAdjacency.TrackSpan` | src/TriggerActivityMakerChannelAdjacency.cpp:137-141 | Every activity has more inputs than the threshold, spans the channels from its first input to its last, and at most tolerance + 3 more channels than it has inputs |
| `ChannelAdjacency.TrackEnds` | src/TriggerActivityMakerChannelAdjacency.cpp:124-139 | Every activity ends where the last of its inputs starts |
| `ChannelAdjacency.EveryPrescaledRun` | src/TriggerActivityMakerChannelAdjacency.cpp:77-82 | While the runs extracted since construction fit in 16 bits, the activities are over every prescale-th of them, in order |
| `MichelElectron.LongestActivity` | src/TriggerActivityMakerMichelElectron.cpp:114-192 | A contiguous slice of a permutation of the window sorted by channel: the track of the first of the longest greedy runs; nothing if all hits are on one channel other than 0 |
| `MichelElectron.LongestActivityMeans` | src/TriggerActivityMakerMichelElectron.cpp:114-192 | Its distinct channels are those of a run; no run is longer and none before it is as long |
| `MichelElectron.LongestActivityIsAdjacency` | src/TriggerActivityMakerMichelElectron.cpp:117-119 | Its number of distinct channels is exactly the adjacency that the horizontal muon maker gives at the same tolerance |
| `MichelElectron.LongestActivityIsWhole` | src/TriggerActivityMakerMichelElectron.cpp:150-170 | Without hits on channel 0 it has every primitive on its channels |
| `TAWindows.TAWindow.Add` | src/TAWindow.cpp:15-31 | Inserts the activity in order of time; ADC sum modulo 2^64 and channel counts agree with the list |
| `TAWindows.TAWindow.Move` | src/TAWindow.cpp:44-75 | Removes the leading activities outside the window length, inserts the new one; sum, counts and order hold |
| `TAWindows.TAWindow.Reset` | src/TAWindow.cpp:78-95 | The window holds just the activity |
| `TAWindows.TAWindow.Clear` | src/TAWindow.cpp:34-41 | Empties the window |
| `TAWindows.InsertedAggregates` | src/TAWindow.cpp:19-30 | Where an activity is inserted does not matter to the aggregates |
| `TAWindows.InsertedIsSorted` | src/TAWindow.cpp:24-30 | Insertion keeps the order of time |
| `CandidateWindows.ArrivedIsWindow` | src/TriggerCandidateMakerChannelAdjacency.cpp:30-47 | In whatever order activities arrive, the window stays in order of time, starts with its first activity and is no longer than its length |
| `CandidateWindows.EarlyDiscards` | src/TriggerCandidateMakerChannelAdjacency.cpp:43-47 | An activity from before the window discards all of it |
| `CandidateWindows.WithinKeepsAll` | src/TriggerCandidateMakerChannelAdjacency.cpp:37-40 | An activity within the window is put in its place, after the first |
| `CandidateWindows.LateSlides` | src/TriggerCandidateMakerChannelAdjacency.cpp:43-47 | An activity from after the window expels exactly those that start at least the window length before it |
| `CandidateWindows.ArrivedIsRecent` | src/TriggerCandidateMakerChannelAdjacency.cpp:30-47 | Activities in order of time leave in the window exactly those that start less than its length before the newest |
| `CandidateMaker.TriggerCandidateMakerChannelAdjacency.Process` | src/TriggerCandidateMakerChannelAdjacency.cpp:25-83 | For all times, the window takes in the activity and becomes a candidate exactly if it is over a threshold; for activities in order of time exactly when those since the last candidate within the window length of the newest are, with sums counted in full while they fit in 64 bits; the candidate is for the time of the first, and read out from the ticks before to the ticks after it |
| `CandidateMaker.TriggerCandidateMakerChannelAdjacency.Take` | src/TriggerCandidateMakerChannelAdjacency.cpp:30-47 | Brings the window to where the arrival leaves it |
| `CandidateMaker.TriggerCandidateMakerChannelAdjacency.Fire` | src/TriggerCandidateMakerChannelAdjacency.cpp:53-79 | Makes a candidate of the whole window, and clears it, exactly if it is over a threshold |
| `CandidateMaker.CandidatesShareNothing` | src/TriggerCandidateMakerChannelAdjacency.cpp:66-78 | When no two arrivals are alike, no two candidates made over any run have an activity in common |
| `CandidateMaker.CandidateReadsOut` | src/TriggerCandidateMakerChannelAdjacency.cpp:120-123 | A candidate starts the readout ticks before the window starts, ends those after it, in unsigned 64-bit arithmetic, and has the inputs of the window |
| `CandidateMaker.OverMeans` | src/TriggerCandidateMakerChannelAdjacency.cpp:53 | While ADC counts add up to less than 2^64 the test on the wrapped sum is that on the sum |
| `ChannelDistance.TriggerActivityMakerChannelDistance.Process` | src/TriggerActivityMakerChannelDistance.cpp:26-55 | An activity is made exactly when its window is over and it has enough inputs; it has the times and channels of its first and last input, the ADC sum of all, and no wide gap; a primitive in time is added exactly if it lies between the bounds of some primitives held, in unsigned 32-bit arithmetic |
| `ChannelDistance.TriggerActivityMakerChannelDistance.SetNewTA` | src/TriggerActivityMakerChannelDistance.cpp:16-24 | A new activity holds the primitive, with bounds that keep its channels without gaps |
| `ChannelDistance.TriggerActivityMakerChannelDistance.SetAttributes` | src/TriggerActivityMakerChannelDistance.cpp:70-97 | Times and channels of the first and last input, and the ADC sum of all |
| `ChannelDistance.GaplessMeans` | src/TriggerActivityMakerChannelDistance.cpp:48-54 | In the sorted list of distinct channels no two neighbours are further apart than the distance |
| `ChannelDistance.GaplessGrows` | src/TriggerActivityMakerChannelDistance.cpp:48-54 | A primitive between the bounds opens no gap |
| `ChannelDistance.WithinBounds` | src/TriggerActivityMakerChannelDistance.cpp:49 | The two bounds kept decide exactly as the bounds of all primitives held do |
| `ChannelDistance.TakesMeans` | src/TriggerActivityMakerChannelDistance.cpp:49 | Only near primitives are taken; away from the ends of the channel range all that are near; for distances below 2^31 exactly those not more than the distance above some channel held and not more than it below some channel held that is itself at least the distance; none while all channels held are below the distance |
| `ChannelDistance.BoundsGrow` | src/TriggerActivityMakerChannelDistance.cpp:53-54 | The bounds kept stay the least and greatest of those of the primitives held, in unsigned 32-bit arithmetic |

## Left out

- The hit pool is not a ring: a hit is a number in a pool that grows, where the library points into a ring of fixed
  size and reuses slots (`include/triggeralgs/dbscan/dbscan.hpp:60-69`). What happens when a slot is reused while some
  list still points to it is not modelled.
- Floating point: hit times, eps and distances are exact reals, and eps at least 0.
- The clusterer's `kNoise` and `kEdge` states, which nothing sets on the paths modelled, `latest_core_point` and
  `maybe_add_new_hit`, which nothing uses, and the count that `neighbours_sorted` returns and nobody reads.
- The static `next_cluster_index` is a field of the object; several clusterers sharing it are not modelled.
- A call of `add_hit` without a vector for completed clusters, which only drops them.
- Clusters and hits are values in a map and a sequence that the object's methods reassign, so aliasing between
  pointers is not modelled.
- Exactness for minPts >= 4 does not hold (`Sharpness.ExactUpToThree`); what does hold for every minPts is proved
  separately (`Placement`, `Stream`, `Finality`).
- Components.HandedOutWhenComplete: has time 0 as a lower bound on the latest time of a cluster, because
  `latest_time` starts at 0; for times that are not negative this makes no difference.
- IncrementalDbscan.IncrementalDBSCAN.constructor: requires that eps is not negative. With a negative eps the two time
  cuts of the source (`src/dbscan/dbscan.cpp:18-21`) leave no pair of hits to compare; that setting is not modelled.
- DbscanMaker.TriggerActivityMakerDBSCAN.Process: requires primitives in time order, which the clusterer demands of its callers
  (`include/triggeralgs/dbscan/dbscan.hpp:75-76`) and the dead guard of the maker does not enforce.
- DbscanMaker.TriggerActivityMakerDBSCAN.AddPrimitive: requires primitives in time order, like `Process`.
- TPWindows.TPWindow.Add: requires that channel counts stay within 16 bits; what a wrapped count does is not modelled.
- TPWindows.TPWindow.Move: requires that channel counts stay within 16 bits, like `Add`.
- HorizontalMuon.TriggerActivityMakerHorizontalMuon.Process: requires a window of fewer than 2^16 primitives, for the
  16-bit counts of the source. With a prescale above 1 nothing is promised about brute force, since dropped triggers lose
  primitives; with tolerance for adjacency it is not exact (`AdjacencyTrigger.ExactWithoutTolerance`).
- AdjacencyTrigger.ExactWithoutTolerance: leaves out the 16-bit limits on window and threshold, which for the largest
  tolerances leave no room for the stream that is missed.
- HorizontalMuon.TriggerActivityMakerHorizontalMuon.DecideOn: requires a window of fewer than 2^16 primitives, like `Process`.
- HorizontalMuon.TriggerActivityMakerHorizontalMuon.Act: requires a window of fewer than 2^16 primitives, like `Process`.
- Adjacency.CheckAdjacency: requires fewer than 2^16 primitives, for the 16-bit adjacency of the source.
- Adjacency.WalkChannels: requires fewer than 2^16 channels, for the 16-bit adjacency of the source.
- ChannelAdjacency.TriggerActivityMakerChannelAdjacency.Process: requires a window of fewer than 2^16 primitives, for the
  16-bit counts of the source.
- ChannelAdjacency.TriggerActivityMakerChannelAdjacency.ExtractRuns: requires a window of fewer than 2^16 primitives, like `Process`.
- ChannelAdjacency.TriggerActivityMakerChannelAdjacency.Refill: requires a window of fewer than 2^16 primitives, like `Process`.
- MichelElectron.LongestActivity: requires a window of fewer than 2^16 primitives, for the 16-bit adjacency of the source.
- TAWindows.TAWindow.Add: requires that channel counts and the number of activities stay within 16 bits.
- TAWindows.TAWindow.Move: requires that channel counts and the number of activities stay within 16 bits.
- TAWindows.TAWindow.Reset: requires that the activity's channel counts stay within 16 bits.
- CandidateMaker.TriggerCandidateMakerChannelAdjacency.Process: requires a window of fewer than 2^16 activities and
  primitives, for the 16-bit counts of the source.
- CandidateMaker.TriggerCandidateMakerChannelAdjacency.Take: requires room for the activity, like `Process`.
- CandidateMaker.TriggerCandidateMakerChannelAdjacency.Fire: requires a window of fewer than 2^16 primitives, like `Process`.
- Channels of 2^31 and above, which the library's signed and unsigned variables would read differently.
- Times that wrap around when a time over threshold is added to them, and 64-bit overflow of ADC sums over the
  inputs of a DBSCAN or channel distance activity.
- The order that `std::sort` gives to primitives on one channel; nothing is promised about it, and so nothing about which
  of several primitives on a channel represents it in a run.
- The two windows that `check_adjacency` of the channel adjacency maker builds are lists here; the ADC sum of the run
  is computed from the list.
- Fields of activities and candidates that are copied from some primitive (peak, detector, type, algorithm), the counts
  of primitives, activities and candidates that are only logged, and the largest adjacency seen.
- The windows of the Michel electron maker, its Bragg peak and kink tests, and its other makers; plane coincidence,
  bundling, prescaling and supernova makers; the makers of candidates other than the channel adjacency one.
- Triton, JSON configuration, factories, logging, dumps, threads and queues.
