# Models of the training projects' core algorithms

Ten of the repository's Go projects hold an algorithm or a state machine whose
correctness is not obvious from any one function. This project models each of them in
Dafny and proves what it promises. `dafny verify dfyconfig.toml` checks everything.

| project | modules | main result |
|---|---|---|
| capstone, routing | `Dijkstra` | drives of fewest minutes under lazy deletion, early exit and zero-weight roads |
| capstone, engine | `Signals`, `Traffic`, `Engine`, `RingBuffers`, `Arrival`, `Journeys`, `Crowds`, `Delays` | exact counters in every interleaving; green recurs; vehicles arrive, by bounds that are least |
| 12-day catalog | `BTreeModel`, `BTree`, `CatalogStore` | a B-tree refines a finite map; the price index equals a scan |
| 08-day evaluator | `Evaluator` | every infix expression evaluates to what the grammar means by it; translation preserves every tree |
| 13,14-day auction | `Auction`, `AuctionRuns`, `AuctionService` | who may bid, and the current bid as the highest standing one, under two-level locking |
| 06,07-day dispatch | `Drivers`, `SearchRing`, `DriverStore`, `Dispatch`, `Dispatcher`, `LinkedNodes`, `RideTracker` | requests and drivers are accounted for; the nearest driver is found |
| 11-day spellchecker | `Levenshtein`, `Suggestions`, `Trie` | least edit scripts; a pruned trie refines a map; top-k completion |
| 05-day caches | `LruModel`, `LruCache`, `HashTable`, `HashMap` | the most recently used keys; a chained table refines a map |
| 10-day scheduler | `Heap`, `Scheduler` | a binary heap; no starvation under aging |
| 03-day editor | `EditModel`, `Editor` | undo and redo invert each other over the linked history |

`Options` and `Sequences` hold what several of them share.

How the models are built:

- Code that changes objects in place is a class with methods. Each method's contract ties
  the new state to a function of the old one, and the lemmas are about that function.
- Concurrency is a state machine: one action for every section that runs under a lock,
  interleaved freely. `AuctionRuns`, `Dispatch` and `Traffic` quantify over all runs.
- Where Go iterates over a map, the model picks the elements in any order, and the
  contract leaves no room for the order to matter.
- Clocks, ticks and generated IDs are parameters. Amounts, prices and weights are `real`.

Results that differ from what one might expect of the code:

- A vehicle needs one tick more than hops * (maxGreen + 2 * yellow + longest travel time):
  the step that notices the arrival comes after the last road. No smaller limit holds of
  all vehicles in all runs (`Delays.InOrderBoundIsLeast`). If vehicles and signals step in
  an arbitrary order within a tick, each hop may cost another tick, and there is a bound
  only for a minimum green of at least two ticks (`Delays.AnyOrderBoundIsLeast`): with one
  tick a vehicle can always look just before and just after the green and never arrive
  (`Delays.NeverArrives`). The runs that show this start from reachable states; crowds keep
  coming from the side streets, and every vehicle, signal and congestion steps once a tick.
- The dispatcher loses a request when the fare comes out negative: the request has left
  the queue before the ride is refused (`Dispatch.LosingRun` is such a run). It can happen
  exactly in setups that allow a trip with a negative fare from a pickup that a driver
  could be found for (`Dispatch.NeverLosesIff`), never with non-negative fare parameters
  (`Dispatch.NothingLost`).
- The price index leaves out products priced below zero or above 1e18 when a bound is not
  given (`CatalogStore.DefaultsExactWhen`, `CatalogStore.DearProductMissed`).
- A delete operation object that is applied a second time while it is still in the
  history forgets the text of its first application. Undo and redo keep working exactly if
  it deletes the same text both times (`EditModel.ApplyAgainKeepsIff`);
  `EditModel.DeletedTwice` is a history that undo does not restore.
- The driver search equals a full scan only where no location in range lies east or west of
  the searched ring (`SearchRing.RingWideIff`). The ring counts a degree of longitude as
  111 km, which it is on the equator alone: with the default settings, at 60 degrees
  north, a driver 3.33 km away is missed (`SearchRing.NarrowInTheNorth`).
- `eval.go` line 17 reads `wif`; the model takes it as `if`.

## Model

| member | source | states |
|---|---|---|
| Dijkstra.ShortestPath | capstone/internal/dijkstra/dijkstra.go:30-77 | over the graph of roads itself: returns no path exactly when no drive along roads leads from source to destination; otherwise the path is a drive that visits no node twice, the total is its minutes, and no drive takes fewer |
| Dijkstra.Rebuild | capstone/internal/dijkstra/dijkstra.go:70-76 | following predecessors from the destination ends, and gives the traced chain |
| Dijkstra.PriorityQueue.PopItem | capstone/internal/ds/priority_queue.go:63-71 | takes out some entry of least priority and nothing else |
| Dijkstra.WeightNonNegativeIff | capstone/internal/dijkstra/dijkstra.go:18-25 | the travel time is non-negative exactly under a stated condition on distance, speed limit and congestion |
| Dijkstra.FrontierBound | capstone/internal/dijkstra/dijkstra.go:44-54 | a walk to a node that is not settled weighs at least the least priority in the queue |
| Dijkstra.RelaxKeeps | capstone/internal/dijkstra/dijkstra.go:55-63 | improving one label keeps every invariant, including settling order, with zero-weight roads allowed |
| Dijkstra.SettleKeeps | capstone/internal/dijkstra/dijkstra.go:45-54 | settling the popped node keeps every invariant |
| Dijkstra.ExitIsOptimal | capstone/internal/dijkstra/dijkstra.go:52-54 | leaving the loop early at the destination is safe: its label is already the lightest |
| Dijkstra.ExhaustionIsOptimal | capstone/internal/dijkstra/dijkstra.go:46-48 | an empty queue means every label is the lightest weight |
| Dijkstra.ChainIsLightest | capstone/internal/dijkstra/dijkstra.go:70-76 | the chain of predecessors is a lightest walk without repeated nodes |
| Dijkstra.WalkIffDrive | capstone/internal/dijkstra/dijkstra.go:55-57 | a walk of the weighted network is a choice of roads along the nodes, and weighs the sum of their minutes |
| Dijkstra.MinutesAtSpeed | capstone/internal/dijkstra/dijkstra.go:18-25 | at congestion 1 the minutes are those that cover the distance at the speed limit, each level more adds a tenth of them; without a speed limit they are the distance |
| BTree.BTree.Search | 12-day/catalog/internal/btree/btree.go:38-59 | finds the value stored under a key in the abstract map |
| BTree.BTree.Insert | 12-day/catalog/internal/btree/btree.go:61-81 | keeps all tree invariants and sets the map at one key only |
| BTree.Node.InsertNonFull | 12-day/catalog/internal/btree/btree.go:100-133 | below a node that is not full, the entries become those of the map update and the subtree keeps its shape and height |
| BTree.Node.SplitChild | 12-day/catalog/internal/btree/btree.go:135-169 | splitting a full child in place is the split of the abstract tree, with no node shared |
| BTree.Node.Update | 12-day/catalog/internal/btree/btree.go:83-98 | overwrites the value of a present key and leaves every key where it is |
| BTree.BTree.RangeQuery | 12-day/catalog/internal/btree/btree.go:171-175 | returns the in-range part of the map in key order |
| BTree.Node.RangeQuery | 12-day/catalog/internal/btree/btree.go:177-207 | skips and stops early without losing or repeating a value |
| BTree.BTree.Delete | 12-day/catalog/internal/btree/btree.go:233-256 | removes one key by rebuilding, and reports whether it was there |
| BTree.Node.CollectEntries | 12-day/catalog/internal/btree/btree.go:258-277 | appends the entries of the subtree in key order |
| BTreeModel.HeightBound | 12-day/catalog/internal/btree/btree.go:61-169 | a non-empty tree of height h and minimum degree t holds at least 2 * t^h - 1 keys |
| BTreeModel.SplitKeepsEntries | 12-day/catalog/internal/btree/btree.go:135-169 | a split changes no entry and no order |
| BTreeModel.SplitKeepsGood | 12-day/catalog/internal/btree/btree.go:135-169 | both halves and the parent keep key counts, separators and leaf depth |
| BTreeModel.LookupPut | 12-day/catalog/internal/btree/btree.go:61-98 | after an insert the key has the new value and every other key what it had; the keys stay ascending |
| BTreeModel.PutMembers | 12-day/catalog/internal/btree/btree.go:61-98 | the entries after an insert are the new one and the old ones of other keys |
| BTreeModel.PutLength | 12-day/catalog/internal/btree/btree.go:61-81 | the size grows by one exactly for a new key |
| BTreeModel.LookupIffMember | 12-day/catalog/internal/btree/btree.go:42-59 | a lookup finds exactly the stored entries |
| BTreeModel.LookupWithout | 12-day/catalog/internal/btree/btree.go:233-256 | after a delete the key is gone and every other key has what it had |
| BTreeModel.InRangeIsSlice | 12-day/catalog/internal/btree/btree.go:171-207 | the range result is the slice of exactly those entries whose key lies in the range, in key order and once each |
| CatalogStore.AddAgrees | 12-day/catalog/internal/store/store.go:298-307 | adding a product to its price group keeps the two views in agreement: every product in exactly one group, no group empty |
| CatalogStore.RemoveAgrees | 12-day/catalog/internal/store/store.go:309-329 | removing a product from its group, and the group when it empties, keeps the agreement |
| CatalogStore.IndexEqualsScan | 12-day/catalog/internal/store/store_bench_test.go:102-115 | the range over the price index and the linear scan give the same products, as multisets, for every range |
| CatalogStore.DefaultsExactWhen | 12-day/catalog/internal/store/store.go:185-206 | with a bound left out, the candidates are those asked for exactly when none lies outside the default bounds 0 and 1e18 |
| CatalogStore.DearProductMissed | 12-day/catalog/internal/store/store.go:185-206 | a product priced above 1e18 is stored and indexed, but a range with a minimum only does not find it |
| CatalogStore.Store.Create | 12-day/catalog/internal/store/store.go:49-67 | error cases and the new map of products; the index agrees afterwards |
| CatalogStore.Store.Update | 12-day/catalog/internal/store/store.go:82-104 | error cases and the new map of products; the index agrees afterwards |
| CatalogStore.Store.Delete | 12-day/catalog/internal/store/store.go:106-119 | error cases and the new map of products; the index agrees afterwards |
| CatalogStore.Store.GetCandidatesFromPriceIndex | 12-day/catalog/internal/store/store.go:185-206 | returns, as a multiset, the products whose price lies between the bounds |
| CatalogStore.Store.LinearRangeQuery | 12-day/catalog/internal/store/store_bench_test.go:102-115 | the same products found by scanning all |
| CatalogStore.PagesJoin | 12-day/catalog/internal/store/store.go:275-296 | the first n pages of one list, joined, are its first n * size products in order, 20 to a page if no size is given |
| Evaluator.InfixToPostfix | 08-day/exp-evaluator/internal/evaluator/parser.go:5-70 | the loop computes the translation that the lemmas below are about |
| Evaluator.EvaluatePostFix | 08-day/exp-evaluator/internal/evaluator/evaluator.go:10-63 | the loop computes the run of the stack machine that the lemmas below are about |
| Evaluator.Evaluate | 08-day/exp-evaluator/internal/evaluator/eval.go:5-23 | translation followed by evaluation, passing on the first error; for every token list of the grammar of sums of products of powers, its value in real arithmetic or the first division by zero |
| Evaluator.EvaluationIsFaithful | 08-day/exp-evaluator/internal/evaluator/parser.go:5-70 | a tree printed with parentheses where precedence and associativity need them (or more) converts to its postorder and evaluates to its value; with known operators the only error is the division by zero the tree itself meets |
| Evaluator.EvaluatesArithmetic | 08-day/exp-evaluator/internal/evaluator/parser.go:5-70 | every token list derived by the grammar (sums and products from the left, powers from the right, parentheses) evaluates to what the derivation means in +, -, *, / and pow, with no reference to precedence |
| Evaluator.InfixDerived | 08-day/exp-evaluator/internal/evaluator/token.go:27-45 | the grammar derives every list of operands with known operators between them, parenthesised ones included |
| Evaluator.OneMeaning | 08-day/exp-evaluator/internal/evaluator/token.go:27-45 | two derivations of one token list mean the same |
| Evaluator.Conventions | 08-day/exp-evaluator/internal/evaluator/token.go:27-45 | a + b * c is a + (b * c), a - b - c is (a - b) - c and a ^ b ^ c is pow(a, pow(b, c)) |
| Evaluator.LeftOver | 08-day/exp-evaluator/internal/evaluator/evaluator.go:14-62 | for any tokens, a run succeeds only with one operand left, reports how many are left otherwise, and misses an operand only where the tokens so far have too few numbers |
| Evaluator.ReadsTree | 08-day/exp-evaluator/internal/evaluator/parser.go:16-55 | the same in the middle of any token list, from any stack |
| Evaluator.ExecutesTree | 08-day/exp-evaluator/internal/evaluator/evaluator.go:14-56 | running a postorder on any operands pushes the value of the tree, or stops at its error |
| Evaluator.ParenthesizeIsFaithful | 08-day/exp-evaluator/internal/evaluator/token.go:27-45 | every tree has such a print, with the same postorder and value |
| Evaluator.PairOrder | 08-day/exp-evaluator/internal/evaluator/token.go:27-45 | of two operators in a row, which is applied first is read off precedence and associativity |
| Evaluator.ConvertsIffBalanced | 08-day/exp-evaluator/internal/evaluator/parser.go:36-68 | for any tokens, conversion fails exactly when the parentheses do not match, and reports the one at fault |
| Evaluator.ConversionConserves | 08-day/exp-evaluator/internal/evaluator/parser.go:5-70 | for any tokens, the output is a rearrangement of the tokens that are not parentheses |
| Evaluator.NumbersKeepOrder | 08-day/exp-evaluator/internal/evaluator/parser.go:5-70 | the numbers come out in the order they came in |
| Signals.Intersection.Step | capstone/internal/engine/engine.go:873-913 | one tick of the controller, in place, is the step of its abstract state |
| Signals.Intersection.AdaptiveGreenTicks | capstone/internal/engine/engine.go:915-938 | the green time for the present queues |
| Signals.AdaptiveGreen | capstone/internal/engine/engine.go:915-938 | the green time stays between the two configured limits |
| Signals.GreenIsShare | capstone/internal/engine/engine.go:915-938 | the green time lies as far between the two limits as the share of the vehicles waiting in that direction, to half a tick |
| Signals.PhasesInTurn | capstone/internal/engine/engine.go:873-913 | a phase lasts its ticks, each green is followed by its own yellow and that by the other green |
| Signals.PreemptionLasts | capstone/internal/engine/engine.go:873-913 | a preemption for n ticks shows its phase in each of the next n and is over after them, the schedule unchanged |
| Signals.TickShortensWait | capstone/internal/engine/engine.go:873-938 | without preemption a tick keeps the schedule within its limits and brings the next green nearer |
| Signals.GreenRecurs | capstone/internal/engine/engine.go:873-938 | every direction is green again within maxGreen + 2 * yellow ticks, whatever the queues |
| Signals.FreshGreenLasts | capstone/internal/engine/engine.go:915-938 | a green that has just begun lasts at least two ticks when the minimum is two |
| Traffic.SectionConserves | capstone/internal/engine/engine.go:703-786 | each locked section of a vehicle step keeps every counter equal to the vehicles it counts, and every vehicle sound |
| Traffic.GuardsNeverSuppress | capstone/internal/engine/engine.go:716-722 | a vehicle that leaves a road or a queue finds the counter above zero, so the guards never hold a decrement back |
| Traffic.ActConserves | capstone/internal/engine/engine.go:703-970 | so does every step of a signal, a preemption, the congestion updater and a registration |
| Traffic.CountersExact | capstone/internal/engine/engine.go:703-970 | in every state reachable by any interleaving, each occupancy and each queue length is the number of vehicles there |
| Traffic.CrossesOnGreen | capstone/internal/engine/engine.go:741-768 | in every run, however the sections interleave, a vehicle has looked at a green light of its own direction at each stop it has crossed: north-south between stops numbered in a row, else east-west |
| Traffic.WholeStepIsStepVehicle | capstone/internal/engine/engine.go:703-786 | the sections of one step, run without interruption, are the whole step |
| Traffic.TicksRoundUp | capstone/internal/engine/engine.go:799-823 | a road takes its minutes rounded up to whole ticks, at least one |
| Traffic.EstimateMeans | capstone/internal/engine/engine.go:213-232 | congestion two on an empty road, one more for every five vehicles, at most ten |
| Engine.Car.Step | capstone/internal/engine/engine.go:703-786 | the vehicle step on shared objects updated in place is the whole step on the abstract state |
| Engine.City.HopRoad | capstone/internal/engine/engine.go:799-823 | the first edge with a road decides, and its travel time is the least number of ticks, one or more, that covers its minutes |
| Engine.City.UpdateCongestion | capstone/internal/engine/engine.go:213-240 | every road gets its congestion from its occupancy, clamped, in any order of visit, and its history takes it in; a corridor whose time has passed is cleared |
| RingBuffers.RingBuffer.Append | capstone/internal/ds/ring_buffer.go:24-33 | in place, the elements become the latest of the old ones and the new one: the new one last, the others one place further from the end, and only the oldest of a full ring gone |
| RingBuffers.RingBuffer.Items | capstone/internal/ds/ring_buffer.go:35-42 | the elements, oldest first |
| RingBuffers.KeptIsLatest | capstone/internal/ds/ring_buffer.go:24-42 | after any number of appends the ring holds the latest of all that was appended |
| RingBuffers.KeptFromEnd | capstone/internal/ds/ring_buffer.go:24-42 | after any appends the i-th element from the end is the i-th value appended, counted from the last |
| Arrival.ArrivesInOrder | capstone/internal/engine/engine.go:681-786 | when vehicles and signals step in the same order every tick, a vehicle has arrived after hops * (maxGreen + 2 * yellow + longest) + 1 ticks |
| Arrival.ArrivesInAnyOrder | capstone/internal/engine/engine.go:681-786 | in any order within the tick, one tick more a hop, for a minimum green of two |
| Delays.InOrderBoundIsLeast | capstone/internal/engine/engine.go:681-938 | of all runs of the traffic state machine from reachable states in which everything steps once a tick, in a fixed order at each stop: every vehicle has arrived at a limit if and only if the limit is at least hops * (maxGreen + 2 * yellow + longest) + 1 |
| Delays.AnyOrderBoundIsLeast | capstone/internal/engine/engine.go:681-938 | of all such runs in any order within the tick: if and only if the minimum green is at least two (or there is no hop) and the limit is at least hops * (maxGreen + 2 * yellow + 1 + longest) + 1 |
| Delays.NeverArrives | capstone/internal/engine/engine.go:681-938 | with a minimum green of one there is, for any number of hops, such a run with a vehicle that never arrives |
| Delays.FirstMorning | capstone/internal/engine/engine.go:703-970 | the state those runs begin in is reached from an empty network by vehicles registering and stepping and signals ticking |
| Crowds.NextMorning | capstone/internal/engine/engine.go:703-938 | while the side street of every stop keeps filling, a tick of the whole traffic leaves every signal on schedule, its queues being those the vehicles make |
| Crowds.CrowdedGreen | capstone/internal/engine/engine.go:915-938 | with at most one vehicle waiting one way and twice the maximum green the other way, the first gets the minimum green and the other the maximum |
| Journeys.MadeIsCalm | capstone/internal/engine/engine.go:681-970 | a whole move keeps the counters exact and leaves no vehicle between two sections, so any sequence of moves is a course |
| Journeys.VehicleArrivesInOrder | capstone/internal/engine/engine.go:681-786 | in every run of the traffic state machine in which the vehicle and the signals of its path step once a tick, in a fixed order at each stop, that vehicle has arrived by the bound, the longest road taken at the worst congestion |
| Journeys.VehicleArrivesInAnyOrder | capstone/internal/engine/engine.go:681-786 | the same in any order within the tick, by the other bound, for a minimum green of two |
| Arrival.GreenSeen | capstone/internal/engine/engine.go:741-748 | a green of at least two ticks is seen by a vehicle that looks every tick |
| Auction.CommitKeeps | 13,14-day/internal/auction/service.go:204-220 | committing a checked bid keeps the store sound: rising history, leading current bid, heap, stacks and users' lists |
| Auction.CommitBeatsAll | 13,14-day/internal/auction/service.go:184-218 | a bid that passes the checks beats every standing bid and the start price |
| Auction.ChecksExact | 13,14-day/internal/auction/service.go:138-192 | a bid passes the checks iff it is by a registered user other than the seller, within balance and window, on an active item, positive and above the current bid or start price; any error says what is wrong |
| Auction.TopIsOwn | 13,14-day/internal/auction/service.go:264-290 | the top of a user's stack is the user's own unretracted bid on the item; the only failure left is that there is none |
| Auction.RetractKeeps | 13,14-day/internal/auction/service.go:292-315 | marking, list, stack and heap cleaning together keep the store sound |
| Auction.EndKeeps | 13,14-day/internal/auction/service.go:346-362 | ending cleans the heap, keeps the store sound and leaves the current bid the winner |
| AuctionRuns.NextKeeps | 13,14-day/internal/auction/service.go:138-378 | every locked section of every call keeps the invariant, in any interleaving |
| AuctionRuns.CurrentBidExact | 13,14-day/internal/auction/service.go:138-378 | in every reachable state the current bid is nil iff no bid stands; otherwise it is the largest standing one and the last of them in the history |
| AuctionRuns.CommitWins | 13,14-day/internal/auction/service.go:193-220 | at its commit a bid is still welcome as of the time it was checked: item active and within its window then, user not the seller, balance enough, amount above every standing bid and the start price, though the store was unlocked in between |
| AuctionRuns.BidAcceptedIff | 13,14-day/internal/auction/service.go:150-192 | in every run, a caller gets past the checks iff its bid is welcome in that state, and is refused for a reason that holds otherwise |
| AuctionRuns.BidsFair | 13,14-day/internal/auction/service.go:138-230 | in every reachable state every bid is positive, within the balance of its user, and not by the seller of its item |
| AuctionRuns.RetractionConfirmedIff | 13,14-day/internal/auction/service.go:232-260 | in every run, a retraction gets past its checks iff the user is registered and the item active |
| AuctionRuns.RetractionExact | 13,14-day/internal/auction/service.go:261-324 | a confirmed retraction takes back the user's largest standing bid, or reports that there is none |
| AuctionRuns.WinnerIsCurrent | 13,14-day/internal/auction/service.go:327-378 | ending an active auction reports the current bid as winner and changes only the status |
| AuctionRuns.WinnerStays | 13,14-day/internal/auction/service.go:327-378 | after the end nothing about the item or its bids changes any more |
| AuctionService.AuctionStore.PlaceBid | 13,14-day/internal/auction/service.go:138-230 | on the store's maps and heaps: a bid that may be made is entered with its own new ID, as current bid, last in history, lists and stack; any other is refused for a reason that holds, and nothing changes |
| AuctionService.AuctionStore.RetractLastBid | 13,14-day/internal/auction/service.go:232-325 | the checks in order, then the retraction with its heap cleaning; it succeeds exactly for a registered user with a standing bid on an active item; on an error nothing changes but that a bid looked at stays popped |
| AuctionService.AuctionStore.EndAuction | 13,14-day/internal/auction/service.go:327-378 | the error cases, the cleaned heap and the winner |
| AuctionService.HeapBook.Push | 13,14-day/internal/auction/store.go:84-94 | creates the item's heap if need be and adds one bid to it alone |
| AuctionService.PopRetracted | 13,14-day/internal/auction/service.go:301-313 | pops retracted bids until an unretracted one is on top |
| Sequences.WithoutLast | 13,14-day/internal/auction/service.go:474-482 | removes the last occurrence of a bid, searching from the end; a format is taken back the same way |
| Drivers.OperationsKeepIndex | 06,07-day/project/internal/driver/store.go:29-216 | every operation leaves the index with exactly the available drivers, each under the block of its location, no block empty, and touches one driver only |
| Drivers.Transitions | 06,07-day/project/internal/driver/store.go:29-216 | which operation is allowed in which status, what status and place it leaves the driver in, and the error and unchanged store of any refusal |
| Drivers.RingSuffices | 06,07-day/project/internal/driver/store.go:218-261 | the answer of the searched ring is the first of all drivers in range if and only if every driver in range outside the ring comes after one inside it |
| SearchRing.RingWideIff | 06,07-day/project/internal/driver/store.go:218-261 | for the code's distance formula: whatever the drivers, the search agrees with a scan of all of them if and only if neither to the east nor to the west of the ring a location is in range; to the north and south there never is one |
| SearchRing.WideOnEquator | 06,07-day/project/internal/geo/geo.go:32-37 | where a degree of longitude is as long as one of latitude the ring is wide enough |
| SearchRing.NarrowInTheNorth | 06,07-day/project/internal/geo/geo.go:32-37 | with the default settings, at 60 degrees north, a driver 3.33 km away is missed though 5 km are allowed |
| Drivers.FewStartsWithNearest | 06,07-day/project/internal/driver/store.go:263-328 | the nearest driver is the first of the few nearest |
| Drivers.NeighborBlocks | 06,07-day/project/internal/geo/geo.go:16-30 | the blocks of the square, each once |
| Drivers.SortedPrefix | 06,07-day/project/internal/driver/store.go:310-327 | the first of the sorted candidates are the few nearest |
| DriverStore.MemoryStore.FindNearestAvailable | 06,07-day/project/internal/driver/store.go:218-261 | an available driver within the distance and the searched ring, with no such driver nearer and, of those as near, none with a smaller ID; none iff there is no such driver; and exactly when it is the first of all drivers in range |
| DriverStore.MemoryStore.FindNNearestAvailable | 06,07-day/project/internal/driver/store.go:263-328 | at most `limit` such drivers, each once, by ascending distance and then ID, and nobody left out before one listed; with the error cases |
| DriverStore.MemoryStore.GoOnline | 06,07-day/project/internal/driver/store.go:65-94 | status transition with the index |
| DriverStore.MemoryStore.GoOffline | 06,07-day/project/internal/driver/store.go:96-124 | status transition with the index |
| DriverStore.MemoryStore.Assign | 06,07-day/project/internal/driver/store.go:126-154 | status transition with the index; a busy driver is accepted silently |
| DriverStore.MemoryStore.Release | 06,07-day/project/internal/driver/store.go:156-185 | status transition with the index |
| DriverStore.MemoryStore.UpdateLocation | 06,07-day/project/internal/driver/store.go:187-216 | moves an available driver to its new block |
| Dispatch.NextKeeps | 06,07-day/project/internal/dispatch/dispatcher.go:49-210 | every section of the dispatcher and every step of a driver keeps the invariant, in any interleaving |
| Dispatch.RequestsInOnePlace | 06,07-day/project/internal/dispatch/dispatcher.go:49-210 | in every reachable state an accepted request is in exactly one place: queue, one active ride, one past ride, or lost |
| Dispatch.BusyIffOneRide | 06,07-day/project/internal/dispatch/dispatcher.go:90-210 | whenever the dispatcher is free, a driver is busy iff exactly one active ride names it |
| Dispatch.LostIffNegativeFare | 06,07-day/project/internal/dispatch/dispatcher.go:131-161 | a step loses a request iff it is the departure of a driver assigned to a request with a negative fare |
| Dispatch.NeverLosesIff | 06,07-day/project/internal/dispatch/dispatcher.go:49-210 | no run at all loses a request if and only if the setup has no trip with a negative fare from a pickup that a driver could be found for |
| Dispatch.LosingRun | 06,07-day/project/internal/dispatch/dispatcher.go:49-166 | for any other setup, a run of six steps from the start that loses one |
| Dispatch.FareNonNegativeIff | 06,07-day/project/internal/dispatch/dispatcher.go:303-305 | no distance gives a negative fare iff neither fare parameter is negative |
| Dispatch.NothingLost | 06,07-day/project/internal/dispatch/dispatcher.go:49-210 | with such parameters no request is ever lost |
| Dispatch.RidesFair | 06,07-day/project/internal/dispatch/dispatcher.go:90-210 | in every reachable state each ride with a driver was started in time and costs the base fare and the fare per km of its distance; each cancelled one had run out |
| Dispatch.ProcessingExact | 06,07-day/project/internal/dispatch/dispatcher.go:90-130 | processing looks at an oldest request: cancels it if its time is up, else finds the nearest driver that reaches the pickup, or there is none |
| Dispatch.RequestTakenIff | 06,07-day/project/internal/dispatch/dispatcher.go:49-88 | a request is queued iff both places are valid and different, its time is not in the future and the rider is known |
| Dispatcher.Dispatcher.RequestRide | 06,07-day/project/internal/dispatch/dispatcher.go:49-88 | queues a request under the next ID iff its places are valid and different, its time is not in the future and the rider is known; else changes nothing |
| Dispatcher.Dispatcher.ProcessNextRequest | 06,07-day/project/internal/dispatch/dispatcher.go:90-166 | an undisturbed call is a run of the dispatcher's sections from free to free; of a request none is older than, it books the nearest driver at the fare of the two parameters, cancels it when its time is up, or says that nobody reaches it or that the fare is negative |
| Dispatcher.Dispatcher.CompleteRide | 06,07-day/project/internal/dispatch/dispatcher.go:168-210 | likewise: an active ride moves to the history and its driver becomes available at the dropoff; any other ID is not found and changes nothing |
| RideTracker.ActiveRideTracker.Add | 06,07-day/project/internal/rides/active_ride_tracker.go:25-41 | appends a valid ride with a new ID; list and map agree |
| RideTracker.ActiveRideTracker.Remove | 06,07-day/project/internal/rides/active_ride_tracker.go:59-80 | takes out exactly the ride of the ID; list and map agree |
| RideTracker.ActiveRideTracker.Get | 06,07-day/project/internal/rides/active_ride_tracker.go:43-57 | finds exactly the listed rides |
| RideTracker.ActiveRideTracker.IdsDistinct | 06,07-day/project/internal/rides/active_ride_tracker.go:12-16 | no ID is listed twice |
| LinkedNodes.List.PushBack | 06,07-day/project/internal/ds/linkedlist/doubly_linked_list.go:41-62 | a new last node, links and length in order |
| LinkedNodes.List.Remove | 06,07-day/project/internal/ds/linkedlist/doubly_linked_list.go:64-102 | unlinks a node of this list and refuses any other |
| LinkedNodes.List.Contains | 06,07-day/project/internal/ds/linkedlist/doubly_linked_list.go:104-112 | walks the links and decides membership |
| LinkedNodes.List.RemoveAfter | 03-day/project/internal/container/doubly_linked_list.go:41-58 | cuts the list after a node, counting what goes |
| Trie.Trie.Insert | 11-day/spellchecker/trie/trie.go:26-45 | one more for the word's frequency, every other word as before; ignores the empty word, and keeps the trie pruned |
| Trie.Trie.Delete | 11-day/spellchecker/trie/trie.go:129-136 | removes exactly the word, and reports whether it was stored |
| Trie.Trie.DeleteWord | 11-day/spellchecker/trie/trie.go:138-163 | the recursion prunes exactly the nodes that lead to no word any more |
| Trie.Trie.Search | 11-day/spellchecker/trie/trie.go:47-59 | holds iff the word is stored |
| Trie.Trie.StartsWith | 11-day/spellchecker/trie/trie.go:61-75 | holds iff some stored word extends the non-empty prefix |
| Trie.Trie.Frequency | 11-day/spellchecker/trie/trie.go:77-94 | the word's frequency, zero if it is not stored |
| Trie.Trie.FindNode | 11-day/spellchecker/trie/trie.go:97-112 | finds the node of a prefix, or none exists; none for the empty prefix |
| Trie.Trie.AutoComplete | 11-day/spellchecker/trie/trie.go:114-127 | at most k stored words of the prefix, each with its frequency, the frequencies not increasing, equal ones in dictionary order, and no word left out more frequent, or as frequent and earlier, than one listed |
| Trie.TopCompletes | 11-day/spellchecker/trie/trie.go:114-127 | the best few are such a completion |
| Trie.Trie.CollectTopWords | 11-day/spellchecker/trie/trie.go:182-199 | for any order of the children, the best of those seen and those below |
| Trie.Trie.Unique | 11-day/spellchecker/trie/trie.go:7-11 | one node for each prefix |
| Suggestions.InsertTopSuggestion | 11-day/spellchecker/trie/trie.go:201-227 | keeps the list the best few of all suggestions seen |
| Suggestions.BetterOrders | 11-day/spellchecker/trie/trie.go:229-234 | the order of suggestions is total and transitive |
| Suggestions.BetterMeans | 11-day/spellchecker/trie/trie.go:229-234 | a suggestion goes first if it is more frequent, or as frequent and earlier in the dictionary: the first differing letter decides, a proper prefix comes first |
| Suggestions.TopUnique | 11-day/spellchecker/trie/trie.go:182-227 | there is only one list of the best few |
| Levenshtein.Levenshtein | 11-day/spellchecker/internal/distance/levenshtein.go:3-45 | the table ends with the distance |
| Levenshtein.LeastEdits | 11-day/spellchecker/internal/distance/levenshtein.go:3-45 | the distance is the least number of inserts, deletes and replacements that turn one word into the other |
| Levenshtein.Shortest | 11-day/spellchecker/internal/distance/levenshtein.go:3-45 | a script of that length exists |
| Levenshtein.NoneShorter | 11-day/spellchecker/internal/distance/levenshtein.go:3-45 | and none is shorter |
| Levenshtein.Symmetric | 11-day/spellchecker/internal/distance/levenshtein.go:3-45 | the distance is symmetric |
| Levenshtein.ZeroIffEqual | 11-day/spellchecker/internal/distance/levenshtein.go:3-45 | it is zero only on equal words |
| Levenshtein.Triangle | 11-day/spellchecker/internal/distance/levenshtein.go:3-45 | it satisfies the triangle inequality |
| LruCache.LRUCache.Put | 05-day/code-snippets/lru/lru.go:35-53 | the list after a put; list, map and size agree |
| LruCache.LRUCache.Get | 05-day/code-snippets/lru/lru.go:55-66 | the value and the list after a get; list, map and size agree |
| LruCache.LRUCache.Detach | 05-day/code-snippets/lru/lru.go:94-113 | unlinks one node and forgets its key |
| LruCache.LRUCache.AttachFirstNode | 05-day/code-snippets/lru/lru.go:78-92 | links a node in front and records its key |
| LruCache.LRUCache.RemoveLastNode | 05-day/code-snippets/lru/lru.go:72-76 | drops the least recently used entry |
| LruModel.CachedKeys | 05-day/code-snippets/lru/lru.go:35-66 | after any run the cached keys, in order, are the `capacity` most recently used distinct keys |
| LruModel.CachedValues | 05-day/code-snippets/lru/lru.go:35-66 | each with the value last put under it |
| LruModel.RecentOrders | 05-day/code-snippets/lru/lru.go:35-66 | the recently used keys are exactly the used ones, each once, by last use |
| HashMap.CustomMapStore.Get | 05-day/dns-cache-resolver/internal/cache_store/custom_cache_store.go:44-55 | walks one chain and finds what the table holds under the key |
| HashMap.CustomMapStore.Set | 05-day/dns-cache-resolver/internal/cache_store/custom_cache_store.go:70-91 | one key changes, none else, and the load stays at most three quarters |
| HashMap.CustomMapStore.Delete | 05-day/dns-cache-resolver/internal/cache_store/custom_cache_store.go:93-110 | one key goes, none else, and the result says whether it was there |
| HashMap.CustomMapStore.Keys | 05-day/dns-cache-resolver/internal/cache_store/custom_cache_store.go:116-126 | every key once, as many as the size says |
| HashMap.CustomMapStore.SetNested | 05-day/dns-cache-resolver/internal/cache_store/custom_cache_store.go:70-91 | set and resize call each other but a resize never starts another |
| HashMap.CustomMapStore.ResizeNested | 05-day/dns-cache-resolver/internal/cache_store/custom_cache_store.go:57-68 | moves the pairs chain by chain into a larger array |
| HashTable.SetWorks | 05-day/dns-cache-resolver/internal/cache_store/custom_cache_store.go:70-91 | for every index function, a set updates the finite map at one key and keeps bucket placement and load, doubling the table when one more key would exceed three quarters |
| HashTable.FnvVectors | 05-day/dns-cache-resolver/internal/cache_store/custom_cache_store.go:25-38 | the hash has the values published for 64-bit FNV-1a of the empty key, "f" and "fo" |
| HashMap.NewCustomMapStore | 05-day/dns-cache-resolver/internal/cache_store/custom_cache_store.go:17-23 | eight empty buckets, indexed by the hash of the key |
| HashMap.HashString | 05-day/dns-cache-resolver/internal/cache_store/custom_cache_store.go:25-38 | the byte loop computes the hash, multiplication and exclusive or in 64 bits |
| HashMap.BucketIndex | 05-day/dns-cache-resolver/internal/cache_store/custom_cache_store.go:40-42 | the hash modulo the number of buckets is an index function, the one the map is created with |
| HashTable.ResizeWorks | 05-day/dns-cache-resolver/internal/cache_store/custom_cache_store.go:57-68 | a resize keeps every pair and every lookup |
| HashTable.RemoveWorks | 05-day/dns-cache-resolver/internal/cache_store/custom_cache_store.go:93-110 | a removal takes one key out of the finite map |
| HashTable.NeverFullAgain | 05-day/dns-cache-resolver/internal/cache_store/custom_cache_store.go:57-73 | during a resize no insertion finds the table full |
| Heap.MinHeap.Push | 10-day/cpu-scheduler/heap/min_heap.go:21-24 | heap order and contents |
| Heap.MinHeap.Pop | 10-day/cpu-scheduler/heap/min_heap.go:26-44 | takes the root, which no item comes before; the rest is a heap of the rest |
| Heap.MinHeap.HeapifyUp | 10-day/cpu-scheduler/heap/min_heap.go:89-100 | restores the order by sifting up, contents unchanged |
| Heap.MinHeap.HeapifyDown | 10-day/cpu-scheduler/heap/min_heap.go:102-127 | restores the order by sifting down, contents unchanged |
| Heap.MinHeap.Verify | 10-day/cpu-scheduler/heap/min_heap.go:70-87 | answers exactly whether the items are in heap order |
| Heap.MinHeap.Peek | 13,14-day/internal/ds/heap/heap.go:78-84 | the root, which no item comes before; the max-heap is the same code with the order turned around |
| Heap.RootLeast | 10-day/cpu-scheduler/heap/min_heap.go:21-44 | in a heap nothing comes before the root |
| Heap.SwapUp | 13,14-day/internal/ds/heap/heap.go:28-38 | one step of sifting up keeps all other pairs in order |
| Heap.SwapDown | 13,14-day/internal/ds/heap/heap.go:57-76 | one step of sifting down keeps all other pairs in order |
| Scheduler.SafeTaskHeap.Push | 10-day/cpu-scheduler/scheduler/safe_task_heap.go:22-31 | one new waiting task, whatever process IDs wait already |
| Scheduler.SafeTaskHeap.Pop | 10-day/cpu-scheduler/scheduler/safe_task_heap.go:33-38 | takes a task than which no waiting one is more urgent, nor as urgent and earlier |
| Scheduler.SafeTaskHeap.AgeWaitingTasks | 10-day/cpu-scheduler/scheduler/safe_task_heap.go:65-87 | the same tasks wait, each one level more urgent down to 1, in heap order |
| Scheduler.NoStarvation | 10-day/cpu-scheduler/scheduler/safe_task_heap.go:33-87 | after nine agings a task that still waits has seen at most as many pops of others as tasks that had arrived no later were waiting then |
| Scheduler.Ages | 10-day/cpu-scheduler/scheduler/safe_task_heap.go:65-87 | a waiting task keeps its arrival and loses one level of priority an aging, never below 1 |
| Scheduler.RivalsLeave | 10-day/cpu-scheduler/scheduler/task.go:40-46 | at the top priority only tasks that arrived no later are popped first |
| EditModel.ReverseUndoes | 03-day/project/internal/editor/operations.go:30-179 | reversing an applied operation gives back text and formats, and applying it again changes nothing about it |
| EditModel.ApplyMeans | 03-day/project/internal/editor/operations.go:30-168 | for each operation: when it is accepted, the resulting text and its length, and what it remembers |
| EditModel.ReverseMeans | 03-day/project/internal/editor/operations.go:53-179 | for each operation: when it can be reversed, and the resulting text |
| EditModel.DeleteRemembers | 03-day/project/internal/editor/operations.go:127-154 | a deletion can be reversed iff it still remembers the text it deleted |
| EditModel.ApplyAgainKeepsIff | 03-day/project/internal/editor/editor.go:43-55 | applying an operation object that may stand in the history already leaves a history that can be undone and redone if and only if it is not among the applied ones or deletes the same text once more |
| EditModel.DeletedTwice | 03-day/project/internal/editor/editor.go:43-68 | from a text entered in a run, one deletion object applied twice where the first two letters differ: undoing both gives another text |
| EditModel.RunConsistent | 03-day/project/internal/editor/editor.go:43-89 | in every reachable state the document is the history replayed up to the current operation |
| EditModel.EditKeeps | 03-day/project/internal/editor/editor.go:43-55 | a new edit keeps the applied operations and discards exactly the undone ones |
| EditModel.UndoWorks | 03-day/project/internal/editor/editor.go:57-68 | undo with something applied never fails, and redo takes it back |
| EditModel.RedoWorks | 03-day/project/internal/editor/editor.go:70-89 | redo with something undone never fails, and undo takes it back |
| EditModel.UndoAllEmpties | 03-day/project/internal/editor/editor.go:57-68 | undoing everything empties the document and keeps the history |
| Editor.TextEditor.ApplyOperation | 03-day/project/internal/editor/editor.go:43-55 | on linked objects, for any operation object: the new state, and exactly when it can still be undone and redone |
| Editor.TextEditor.Undo | 03-day/project/internal/editor/editor.go:57-68 | on linked objects, the abstract undo; in a history that can be replayed it succeeds exactly when something is applied |
| Editor.TextEditor.Redo | 03-day/project/internal/editor/editor.go:70-89 | on linked objects, the abstract redo; in a history that can be replayed it succeeds exactly when something is undone |
| Editor.EditOperation.Apply | 03-day/project/internal/editor/operations.go:30-168 | checks, new document and remembered text of the four operations |
| Editor.EditOperation.Reverse | 03-day/project/internal/editor/operations.go:53-179 | checks and new document of the four reversals |
## Left out

- HTTP handlers, middleware, event streams, command lines, JSON, files, profiling and dashboards: plumbing around the modelled cores.
- Floating point: amounts are `real`, so rounding, NaN and infinities are not covered; `math.Pow` is a parameter, and so is the distance between two locations, which `Dispatch` only assumes to be non-negative and `SearchRing` to be the planar formula, with the cosine of the latitude as a number k.
- Machine integers: counters, IDs and frequencies do not overflow.
- `container/heap`: Dijkstra's queue is a bag that yields any entry of least priority; the hand-written heaps are verified in `Heap`.
- Dijkstra.ShortestPath: asks for a network whose travel times are non-negative and whose edges lead to nodes; the live view of the graph that changes during a search, and the congestion penalty of the emergency corridor, are not modelled.
- Tokenizing and `ParseFloat`: the evaluator starts from tokens, and its errors carry positions but no wrapping text.
- BTree: the visual dump and the in-order listing only repeat `CollectEntries`.
- CatalogStore: the list filters, `sort.Slice` by the other fields and the statistics; of the page arithmetic, only one fixed list.
- Traffic: vehicles, signals and roads are values in the state machine; updating them in place is in `Engine`, the history of the congestion and the expiry of the corridor are in `Engine` alone. Routing at registration, plate checks and the averages are left out.
- Engine.Car: after a departure the queue group keeps its old value where the code stores an empty string; it is only read while queued.
- Arrival.ArrivesInOrder: as in `Journeys`, every vehicle and every signal steps once in each tick; the engine's goroutines may fall behind one another by whole ticks.
- Delays.InOrderBoundIsLeast: `longest` is the time at the worst congestion; in the late runs the roads have no speed limit, so that congestion does not change their time.
- Preemption: it is part of the conservation results, but the timing results exclude it, as a preempted phase ignores the schedule.
- Auction: categories, watchers and events, input checks for names, and the linked list that repeats each item's bid history. A bid's flag and the heap entry that names it are separate, where the code shares one object.
- AuctionService.AuctionStore.PlaceBid: the checks and the commit run without another call in between; `AuctionRuns` interleaves them.
- Dispatch: rider histories and the earnings and waiting-time figures. The request queue is a map ordered by time; `Dispatcher` keeps it in a heap.
- Drivers: a driver record is a value found by its ID; the sharing of one record by the two maps is not captured. IDs are integers, so blank IDs read as unknown ones. Ratings and names are left out.
- DriverStore.MemoryStore.FindNNearestAvailable: an insertion sort stands in for `sort.Slice`; only the sorted order is used.
- RideTracker: the listing of all rides and the length are not modelled.
- HashMap: keys are sequences of characters, each taken as one byte.
- Scheduler: every push is a waiting task of its own; one task object pushed a second time while it still waits, so that both entries age as one, is not modelled. The notification channel is left out.
- Scheduler.NoStarvation: takes as hypotheses that priorities lie between 1 and 10 and that tasks pushed later arrive strictly later. A producer stamps the arrival before it pushes, so the second needs a single producer and a clock that never reads the same twice.
- Editor: text is a sequence of bytes, positions are byte positions, and the printed forms are left out.
- Trie: words are sequences of code points; the unlimited collection of words is not modelled, as nothing but a listing uses it.
- The circular queue of 09-day, the garage, stock, packet-router and sensor programs, sharded maps and topic snippets: easy, repeated or not working.
