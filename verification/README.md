# Verified models of the distributed examples of muduo-protorpc

This project models, in Dafny, the algorithms and protocols of the repository and proves what
they are for:

* **N-queens.** The bit-mask search of the server counts exactly the legal placements; the C++
  client's half board and the Go client's two-level shards, answered in any order, add up to the
  number of all placements (`Words`, `Queens`, `QueensServer`, `QueensClients`).
* **Distributed sort.** Workers shuffle their keys to the peers in batches from a fixed pool of
  buffers, in every interleaving of appends, sends, deliveries, acknowledgements and takes
  (`ShuffleWorker`, `ShuffleSteps`, `Shuffle`, `ShuffleTheorems`, `Wordfreq`), with the choice of
  pivots (`Partition`) and both histograms (`Histogram`).
* **Distributed selection.** The bisection over int64 with wrapped arithmetic, and the collector
  that asks every sorter (`Kth`, `Median`).
* **RPC multiplexing.** The call table of `RpcChannel` and the id rewriting of the Go balancer
  (`RpcChannel`, `RpcRuns`, `Balancer`, `BalancerRuns`, `RpcObjects`).
* **Framing.** The Go codec over Adler-32, as section 8.2 of RFC 1950 defines it (`Codec`,
  `Adler32`).
* **File cache.** The LRU cache with its sentry (`FileCache`, `FileCacheRuns`).

`Sums`, `Sorting`, `Modulo`, `Powers`, `Cardinality`, `Arrivals` and `Options` are shared. `dafny verify dfyconfig.toml` checks
everything.

Concurrent code is modelled as a state machine: an `Event` is one step of one thread, goroutine,
callback or peer, `Enabled` says when it can happen, and `Run` is a run, with the steps in any
order. A theorem about `Run` holds of every finite interleaving. The objects behind the machines
(`Wordfreq.WordCounter`, `Wordfreq.ShuffleThread`, `RpcObjects.Channel`, `RpcObjects.BackendConn`)
are classes whose methods are proved to take exactly the machine's steps; `ShuffleThread` carries
the events of the machine as a ghost, so that every state of the object is one a run leads to.

## What the code does that its users may not expect

* The last loop of `shuffle` waits for every buffer of the pool, but a partition whose batch is
  empty at the end never gives its buffer back. A worker's shuffle therefore completes only if no
  partition's number of keys from that worker, zero included, is a multiple of `kBatch`
  (`ShuffleTheorems.DrainCompletesExactly`); otherwise `ShuffleKey` is never answered, as for a
  worker without keys (`ShuffleTheorems.StuckRun`). The keys are delivered and the sorted output
  is right either way (`ShuffleTheorems.GloballySorted`).
* `partition` keeps the pivots of the first attempt when it retries, so its own size assertion
  fails: it has a result exactly when the first attempt is accepted (`Partition.Choose`). With
  fewer than half as many keys as candidate pivots it never is (`Partition.SparseKeysFail`).
* The pivots that `partition` returns can be equal, and every worker refuses them then. They are
  accepted exactly when no slot of the first attempt's histogram reaches the targets of two
  neighbouring workers and the last slot reaches none (`Partition.ChoiceIsAccepted`); two keys
  with the value 1 for two workers are refused (`Partition.EqualKeysAreRefused`).
* `getKth` fails its assertion for a rank above the count, unless the maximum is the largest
  int64: then `guess + 1` wraps, which C++ leaves undefined, and the guard of 100 steps ends the
  search (`Kth.GetKth`).
* `backtrackingsub` starts its search below the queens the request fixes, so a board that they
  already fill counts 0, as with a single queen.
* `DecodeGeneral` takes a tag of any length, but cuts the payload out at the fifth byte: it
  returns what was sent exactly for tags of four bytes (`Codec.RoundTrip`). It also reports a
  clean end of file when the stream is cut just after a length (`Codec.EndOfFileExactly`),
  because `io.ReadFull` reports that for a read that gets no bytes.
* Setting the sentry of the file cache anew forgets the files used before that
  (`FileCacheRuns.SentryUsedAgain`).

## Model

| member | source | states |
|---|---|---|
| Queens.AttackLines | examples/nqueens/server.cc:47-50 | queens of two rows attack exactly when their columns are equal or as far apart as their rows |
| Queens.CountByColumn | examples/nqueens/server.cc:39-55 | the completions of a partial board are those of its one-queen extensions, each counted once |
| Queens.MirrorCount | examples/nqueens/client.cc:27-30 | reflection carries the solutions with first queen in c one to one to those with first queen in N-1-c, for every N |
| Queens.WeightedTotal | examples/nqueens/client.cc:19-30 | half the columns, doubled except for the middle one of an odd board, give the number of all placements, for every N |
| Queens.CountFitsInt64 | examples/nqueens/server.cc:16-19 | with at most 20 queens no count leaves int64 |
| Words.ClearLowest | examples/nqueens/server.cc:54 | `avail & (avail - 1)` clears the lowest set bit and no other, at any width |
| Words.ValueDecrement | examples/nqueens/server.cc:54 | the bit-level decrement is subtraction of one modulo 2^width |
| Words.ValueShiftUp | examples/nqueens/server.cc:50 | the shift up doubles and drops the bit that leaves the word |
| Words.DoubledIsModulo | examples/nqueens/server.cc:50 | doubling and dropping the carry is doubling modulo 2^width |
| Words.PlacedValues | examples/nqueens/server.cc:47-50 | as unsigned numbers, for a column free in all three masks: the queen's bit is added, one diagonal halved, the other doubled modulo 2^width |
| Words.AvailableValues | examples/nqueens/server.cc:36-54 | as unsigned numbers: the complement is the difference to all ones, the loop goes on while it is not zero, and each round subtracts the lowest bit |
| QueensServer.AvailIsPlaceable | examples/nqueens/server.cc:36-37 | the set bits of `avail` are exactly the columns that no earlier queen attacks, in every bit of the word |
| QueensServer.EncodesDown | examples/nqueens/server.cc:47-50 | or and shift keep all three masks exact for the board with one more queen, whatever bits are shifted out |
| QueensServer.NextColumn | examples/nqueens/server.cc:39-43 | the lowest set bit is the next free column; the columns skipped have no completions; clearing moves past exactly that column |
| QueensServer.BackTracking.constructor | examples/nqueens/server.cc:25-32 | all masks are zero and the count is 0 |
| QueensServer.BackTracking.Search | examples/nqueens/server.cc:34-56 | adds to `count` the number of completions of the board its masks encode, none below the last row, and leaves the masks at and above its row unchanged |
| QueensServer.BacktrackingSub | examples/nqueens/server.cc:59-88 | returns the number of completions of the one or two fixed queens, wherever in the word their bits are; 0 when they leave no row |
| QueensServer.FixSecond | examples/nqueens/server.cc:67-81 | the branch for two fixed queens: their completions, and none if they attack each other |
| QueensClients.QueensClient.OnResponse | examples/nqueens/client.cc:24-38 | adds the weighted answer; the last answer, and no other, reports the total |
| QueensClients.QueensClient.Run | examples/nqueens/client.cc:16-40 | for every order of arrival the one report is the number of all placements |
| QueensClients.ArrivalTotal | examples/nqueens/client.cc:19-38 | the weighted answers of the half board add up to every placement in any order |
| QueensClients.JobsExactly | examples/nqueens/go/nqueens-client/client.go:38-54 | each subproblem of the half board is given out exactly once: first columns alone up to the threshold, and with every second column above it |
| QueensClients.JobsTotal | examples/nqueens/go/nqueens-client/client.go:38-54 | the shards of one first column, one or one a second column, answer its count exactly, on either side of the threshold |
| QueensClients.ShardsOfColumn | examples/nqueens/go/nqueens-client/client.go:72-77 | whatever order the shards arrive in, those of one first column add up to its count |
| QueensClients.Ask | examples/nqueens/go/nqueens-client/client.go:19-33 | the answer to a job on the board is the count of its columns, 0 for one queen |
| QueensClients.Mapper | examples/nqueens/go/nqueens-client/client.go:35-59 | one shard a job, each with the server's answer, in order of arrival |
| QueensClients.Reducer | examples/nqueens/go/nqueens-client/client.go:72-89 | the weighted sum over the half board of what the shards say of each column |
| QueensClients.Solve | examples/nqueens/go/nqueens-client/client.go:35-89 | mapping and reducing gives the number of all placements, for one or two levels and any order |
| Sorting.BoundsAreRanks | examples/median/sorter.cc:54-56 | on sorted data lower_bound counts the smaller elements and upper_bound less lower_bound the equal ones |
| Sorting.SortedUnique | examples/wordfreq/wordfreq.cc:210 | two sorted sequences with the same elements are equal |
| Kth.MidpointExact | examples/median/kth.h:48-49 | the wrapped midpoint is the true one and stays between min and max even when max - min leaves int64 |
| Kth.Probe | examples/median/kth.h:35-43 | smaller and same counts decide on which side of the guess the element of rank k is |
| Kth.Halve | examples/median/kth.h:40-49 | after the first probe each step at least halves the range |
| Kth.TooFar | examples/median/kth.h:40-49 | for a rank above the count every probe is too small, and a range is left only where guess + 1 wraps |
| Kth.Narrower | examples/median/kth.h:40-49 | for any other rank a round that does not find it leaves a range that holds the answer, with the guess in it |
| Kth.Refine | examples/median/kth.h:30-49 | one round of the loop: it finds the rank, keeps the invariant, fails the assertion or hits the guard, exactly as the rank and the maximum decide |
| Kth.GetKth | examples/median/kth.h:12-54 | for all int64 data: the element of rank k after at most 66 searches for 1 <= k <= count; a rank below 1 ends at the minimum after 101; a rank above the count fails the assertion after one search if and only if the maximum is not the largest int64, and is not found after 101 otherwise |
| Median.ValueInRange | examples/median/sorter.cc:75-80 | a generated value lies from min up to but without max, at the draw modulo the range, or is min when the range is too small |
| Median.Sorter.DoGenerate | examples/median/sorter.cc:70-89 | the shard is sorted and holds the generated values |
| Median.Sorter.Query | examples/median/sorter.cc:30-44 | count and true extremes of the shard; no extremes when it is empty |
| Median.Sorter.Search | examples/median/sorter.cc:46-58 | the numbers of elements smaller than and equal to the guess |
| Median.PickedPermutation | examples/median/collector.cc:130-147 | two orders of the same answers describe the same multiset of data |
| Median.TakeDescribes | examples/median/collector.cc:136-144 | folding one answer in keeps count and true extremes; empty shards do not disturb them |
| Median.RanksNext | examples/median/collector.cc:164-165 | adding one shard's ranks gives the ranks in the union so far |
| Median.Collector.GetStats | examples/median/collector.cc:126-149 | count and true extremes of the union, for any sharding and any order of answers |
| Median.Collector.Search | examples/median/collector.cc:151-170 | the ranks of the guess in the union, for any order of answers |
| Median.Collector.GetKth | examples/median/collector.cc:111-113 | the bisection with every probe answered by the sorters, in a different order each: as Kth.GetKth over the union |
| Median.Collector.Run | examples/median/collector.cc:90-123 | for any order of the answers to the query and to each probe, the element of rank (count+1)/2 of the union, and nothing exactly when there is no data |
| ShuffleWorker.PartIsBetween | examples/wordfreq/wordfreq.cc:315-319 | a key goes to partition r exactly when it is above pivot r-1 and not above pivot r |
| ShuffleSteps.AppendKeeps | examples/wordfreq/wordfreq.cc:313-325 | appending a key, and sending a full batch, keeps the worker's invariant and every partition's debt |
| ShuffleSteps.TakeKeeps | examples/wordfreq/wordfreq.cc:327-330 | taking a buffer keeps the invariant and the debt |
| ShuffleSteps.FlushKeeps | examples/wordfreq/wordfreq.cc:334-342 | sending what is left of a partition keeps the invariant and the debt |
| ShuffleSteps.DeliverPays | examples/wordfreq/wordfreq.cc:187-204 | a delivery pays its partition exactly the keys of the batch |
| ShuffleSteps.AckKeeps | examples/wordfreq/wordfreq.cc:357-361 | an acknowledgement moves the buffer to the free queue and nothing else |
| Shuffle.StepConserves | examples/wordfreq/wordfreq.cc:187-361 | every step of every worker keeps: keys received plus keys owed are the keys there were, key by key and partition by partition |
| ShuffleTheorems.AcceptsExactly | examples/wordfreq/wordfreq.cc:169-172 | the check accepts exactly strictly increasing pivots, one a peer, that cover the worker's keys |
| ShuffleTheorems.AcceptedStarts | examples/wordfreq/wordfreq.cc:163-185 | pivots that every worker accepts start a run the theorems speak of |
| ShuffleTheorems.PoolIsSafe | examples/wordfreq/wordfreq.cc:299-332 | in every run each buffer is in exactly one place, calls in flight never exceed the pool, and a waiting worker has a buffer free or in flight |
| ShuffleTheorems.RunsEnd | examples/wordfreq/wordfreq.cc:292-355 | no run is longer than a bound computed from the keys and the pool |
| ShuffleTheorems.CanRunToTheEnd | examples/wordfreq/wordfreq.cc:292-355 | every reachable state can be run until nothing more can happen |
| ShuffleTheorems.AllAckedWhenDone | examples/wordfreq/wordfreq.cc:344-353 | when a worker finishes, all its keys have been sent, delivered and acknowledged |
| ShuffleTheorems.DrainCompletesExactly | examples/wordfreq/wordfreq.cc:334-353 | in every run that cannot go on, exactly the workers without a partition whose key count is a multiple of the batch size have completed |
| ShuffleTheorems.SmallShardsComplete | examples/wordfreq/wordfreq.cc:373-374 | with four buffers a peer and batches of 8192, a worker with between 1 and 8191 keys for each partition completes in every run that cannot go on |
| ShuffleTheorems.FullBatchNeverCompletes | examples/wordfreq/wordfreq.cc:373-374 | a worker with exactly 8192 keys for some partition never completes |
| ShuffleTheorems.NoKeysNeverCompletes | examples/wordfreq/wordfreq.cc:334-353 | a worker without keys never completes, in any run that cannot go on |
| ShuffleTheorems.StuckRun | examples/wordfreq/wordfreq.cc:334-353 | a run of one worker without keys, with the pivot 5, that ends stuck in the last loop |
| ShuffleTheorems.QuiescentSettles | examples/wordfreq/wordfreq.cc:313-353 | in every run that cannot go on everything has been delivered, stuck drains included |
| ShuffleTheorems.PartitionIsExact | examples/wordfreq/wordfreq.cc:187-204 | once everything is delivered a partition has exactly the keys between its pivots, as a multiset |
| ShuffleTheorems.PartitionSize | examples/wordfreq/wordfreq.cc:187-204 | once everything is delivered a partition has as many keys as are routed to it |
| ShuffleTheorems.GloballySorted | examples/wordfreq/wordfreq.cc:206-228 | in every run, once everything is delivered, the sorted partitions one after the other are the sorted sequence of all workers' keys |
| Wordfreq.IsSorted | examples/wordfreq/wordfreq.cc:232-236 | true exactly for strictly increasing neighbours |
| Wordfreq.PositiveCounts | examples/wordfreq/wordfreq.cc:248-250 | the kept keys are the positive ones, each as often as it is read |
| Wordfreq.PositivePositions | examples/wordfreq/wordfreq.cc:242-257 | they stand in the file in the same order |
| Wordfreq.WordCounter.ReadKeys | examples/wordfreq/wordfreq.cc:238-259 | keeps every positive key as often as it is read and no other, in order, and maxKey_ is their maximum |
| Wordfreq.WordCounter.ShuffleKey | examples/wordfreq/wordfreq.cc:163-185 | starts a shuffle exactly for valid covering pivots when none is running, with the right error otherwise |
| Wordfreq.WordCounter.ShardKey | examples/wordfreq/wordfreq.cc:187-204 | appends the batch, takes the partition of the first one for good, as the machine's receiver does |
| Wordfreq.WordCounter.SortKey | examples/wordfreq/wordfreq.cc:206-228 | the keys are sorted and permuted; the response has their count and true extremes |
| Wordfreq.SortedEnds | examples/wordfreq/wordfreq.cc:221-225 | the ends of the sorted keys are their least and greatest |
| Wordfreq.ShuffleThread.Start | examples/wordfreq/wordfreq.cc:299-311 | one buffer a partition, the rest of the pool free; a step of the machine |
| Wordfreq.ShuffleThread.AddKey | examples/wordfreq/wordfreq.cc:313-325 | takes the machine's append step |
| Wordfreq.ShuffleThread.TakeFree | examples/wordfreq/wordfreq.cc:326-331 | takes the machine's step from a free buffer to the partition that waits |
| Wordfreq.ShuffleThread.DoneShardKey | examples/wordfreq/wordfreq.cc:357-361 | takes the machine's acknowledgement step |
| Wordfreq.ShuffleThread.Serve | examples/wordfreq/wordfreq.cc:323-361 | any sequence of deliveries and acknowledgements between two steps loses no buffer and leaves the thread's own fields alone |
| Wordfreq.ShuffleThread.AddAll | examples/wordfreq/wordfreq.cc:313-332 | the main loop ends: a call is in flight whenever it waits for a buffer, whatever is acknowledged when |
| Wordfreq.ShuffleThread.FlushOne | examples/wordfreq/wordfreq.cc:336-341 | takes the machine's flush step: the rest of the partition goes into a call, and an empty batch keeps its buffer |
| Wordfreq.ShuffleThread.FlushAll | examples/wordfreq/wordfreq.cc:334-342 | every partition is flushed, with calls answered in between, and nothing is drained yet |
| Wordfreq.ShuffleThread.DrainAll | examples/wordfreq/wordfreq.cc:344-350 | takes the whole pool, or blocks with nothing free and nothing in flight |
| Wordfreq.ShuffleThread.Shuffle | examples/wordfreq/wordfreq.cc:292-355 | the three loops, with deliveries and acknowledgements at any point, are a run of the machine that completes exactly when no partition's key count is a multiple of the batch size, and blocks nowhere but in the last loop |
| Histogram.SlotsAreRanks | examples/wordfreq/partition.h:76-78 | partial sums of the slots count the keys not above each pivot |
| Histogram.SlotsCoverKeys | examples/wordfreq/wordfreq.cc:143-158 | the slots and the overflow slot add up to the number of keys |
| Histogram.SlotsAdd | examples/wordfreq/wordfreq.cc:135-161 | the slots of two sets of keys add up to the slots of both |
| Histogram.ShardSlots | examples/wordfreq/wordfreq.cc:135-161 | the histograms of any number of workers add up to the histogram of all their keys |
| Histogram.GetHistogram | examples/wordfreq/wordfreq.cc:135-161 | every slot, the overflow slot included, has the number of its keys |
| Histogram.GetHistogramFromKey | examples/wordfreq/partition_unittest.cc:24-43 | over sorted keys the two-pointer histogram has the same slots, without the overflow slot |
| Partition.EvenPivotsSorted | examples/wordfreq/partition.h:35-49 | an attempt's pivots are strictly increasing, as many as announced, and end in maxKey |
| Partition.PivotsDivideEvenly | examples/wordfreq/partition.h:35-47 | there are as many candidates as slots or key values, whichever are fewer; the last is maxKey and the others divide the keys up to it evenly, up to the rounding |
| Partition.FirstAttemptIs | examples/wordfreq/partition.h:28-61 | the first attempt has 32 slots a worker and fits exactly when no slot holds more than twice the average |
| Partition.CutIsClose | examples/wordfreq/partition.h:82-86 | the pivot found for a target has between target and target + bound keys at or below it |
| Partition.PushPivots | examples/wordfreq/partition.h:35-47 | appends one attempt's pivots to what is there: candidate i lies at part i+1 of the keys up to maxKey, up to the rounding |
| Partition.Attempt | examples/wordfreq/partition.h:35-62 | the size check holds exactly when no pivots were left over; a retry is asked for exactly when a slot is above twice the average |
| Partition.Choose | examples/wordfreq/partition.h:19-92 | there is a result exactly when the first attempt fits; then it is, for each worker but the last, the first candidate with i*perWorker keys at or below it, and maxKey; cut i has between i*perWorker and i*perWorker + B keys at or below it; every pivot is maxKey or one of the points that divide the keys evenly |
| Partition.ChosenAreEven | examples/wordfreq/partition.h:80-88 | every pivot of the result is maxKey or one of the first attempt's dividing points |
| Partition.Cut | examples/wordfreq/partition.h:74-91 | for an accepted histogram every later assertion holds, and each cut is the first candidate that reaches its target |
| Partition.TargetIsProduct | examples/wordfreq/partition.h:83 | the target of worker i is i * perWorker |
| Partition.SparseKeysFail | examples/wordfreq/partition.h:49-67 | with fewer than half as many keys as candidate pivots the first attempt never fits |
| Partition.RetryFailsForOneKey | examples/wordfreq/partition.h:30-67 | one worker with the single key 32: the assertion fails |
| Partition.LoadsBalanced | examples/wordfreq/partition.h:79-87 | every worker but the last gets its share of the keys to within B |
| Partition.LoadIsRouted | examples/wordfreq/wordfreq.cc:315-319 | the keys between two cuts are those the shuffle routes to the worker |
| Partition.ReceiversAreBalanced | examples/wordfreq/partition.h:79-91 | in every shuffle with the chosen pivots, once everything is delivered, every worker but the last holds its share of all the keys to within B |
| Partition.CandidatesDiffer | examples/wordfreq/partition.h:82-86 | the candidates for two targets differ exactly when no slot reaches both |
| Partition.ChoiceIsAccepted | examples/wordfreq/wordfreq.cc:169-172 | every worker accepts the chosen pivots if and only if no slot of the first attempt reaches two neighbouring targets and the last slot reaches none |
| Partition.NarrowSlotsAreAccepted | examples/wordfreq/partition.h:51-67 | a slot bound below a share is enough for that |
| Partition.SingleCandidateIsRefused | examples/wordfreq/partition.h:36-47 | when the largest key is 1, two workers or more always get pivots that are refused |
| Partition.EqualKeysAreRefused | examples/wordfreq/partition.h:82-88 | for the keys 1 and 1 and two workers there is a result, and it is refused |
| BalancerRuns.NeverPanics | go/balancer/main.go:115-149 | in every run every id on a backend's wire is in `outstanding`, and no lookup misses |
| BalancerRuns.BackendsSeeTheRequests | go/balancer/main.go:137-147 | in every run whatever is on a backend's wire carries the body of the request it stands for |
| BalancerRuns.RecordsAreEvents | go/balancer/main.go:63-76 | in every run the requests are those the clients have sent, in order, and the recorded answers are what the backends have answered |
| BalancerRuns.DeliveriesAreRight | go/balancer/main.go:119-134 | in every run each message written to a client replies to a request of that very client, under the id it was asked with, and carries what a backend answered to that request |
| BalancerRuns.RepliesReachTheirClient | go/balancer/main.go:119-148 | in every run each single request is answered at most once, only its client gets the reply and no more often than that, whatever ids and bodies the clients repeat and whatever the backends answer; once nothing is in flight it has been replied to exactly once |
| BalancerRuns.ClientsGetWhatTheyAsk | go/balancer/main.go:119-148 | in every run, for each client and message, no more replies than requests with it, and exactly as many once nothing is in flight |
| BalancerRuns.DispatchIsRoundRobin | go/balancer/main.go:79-89 | in every run backend b has been given exactly the requests at the positions b modulo the number of backends, in order of arrival; its channel holds the last of them, and the others have got the ids from 100 on |
| BalancerRuns.Progress | go/balancer/main.go:79-149 | while a reply is owed some goroutine or backend can take a step |
| BalancerRuns.RunsEnd | go/balancer/main.go:79-149 | no run is longer than the work at its start and six steps for each request it reads |
| BalancerRuns.CanRunUntilIdle | go/balancer/main.go:79-149 | from every state it can go on, reading no more requests, until nothing is in flight |
| BalancerRuns.EveryReplyArrives | go/balancer/main.go:115-149 | a run after which only new requests could come has replied to every request, exactly once, to the client that asked |
| Balancer.Routed | go/balancer/main.go:124-133 | the reply read goes to the client that asked, under the id it asked with, with the body the backend gave |
| RpcObjects.BackendConn.Renumber | go/balancer/main.go:137-147 | registers the new id before the message is sent, as the machine's step does |
| RpcObjects.BackendConn.OnReply | go/balancer/main.go:118-134 | never panics; restores id and channel of the request the reply is for |
| RpcObjects.DispatchAll | go/balancer/main.go:79-89 | the loop's index is the count of requests modulo the number of backends |
| RpcChannel.StepKeeps | muduo/protorpc2/RpcChannel.cc:61-211 | every step of client, server and connection keeps the invariant that ties table, messages and callbacks together, call by call |
| RpcChannel.CallbackAtMostOnce | muduo/protorpc2/RpcChannel.cc:104-152 | in every run a call's callback runs at most once, with the first response its service gave for that very call, even when `done` is called twice |
| RpcChannel.AnsweredCallsAreCalledBack | muduo/protorpc2/RpcChannel.cc:104-152 | once every response has been read, exactly the answered calls have been called back, once |
| RpcChannel.ServiceSeesItsRequest | muduo/protorpc2/RpcChannel.cc:163-183 | a service gets each request at most once, with the body of its call |
| RpcRuns.RequestsReachTheirService | muduo/protorpc2/RpcChannel.cc:163-199 | in every run, once the connection is drained, a call that has been sent has been handed to a service once if the server has its method, and never if it has not |
| RpcRuns.EveryCallCanBeAnswered | muduo/protorpc2/RpcChannel.cc:61-211 | from every reachable state a call to a method the server has can be carried on, with no further call, until its callback has run exactly once |
| RpcRuns.CallsAreThoseMade | muduo/protorpc2/RpcChannel.cc:61-81 | in every run the calls are those made, in order, and the answers to each are what was passed to `done` for its own request |
| RpcRuns.CallbackGetsFirstAnswer | muduo/protorpc2/RpcChannel.cc:138-147 | in every run a callback that has run was given the first thing its service said to its own request |
| RpcObjects.Channel.NextId | muduo/protorpc2/RpcChannel.cc:69-70 | the id is new, and the object follows the machine |
| RpcObjects.Channel.CallMethod | muduo/protorpc2/RpcChannel.cc:61-81 | the callback is in the table under the message's id before the message is sent |
| RpcObjects.Channel.OnResponse | muduo/protorpc2/RpcChannel.cc:104-152 | runs a callback exactly for a call's first response and drops every later one |
| Adler32.ChecksumIs | go/muduorpc/codec.go:35 | the low half is one more than the sum of the bytes, the high half their number and the sum weighted by the distance to the end, both modulo 65521 |
| Adler32.NoZeroProduct | go/muduorpc/codec.go:35 | 65521 divides no product of a number below 256 and one below 65521 |
| Adler32.ByteChangeNoticed | go/muduorpc/codec.go:35 | one changed byte always changes the checksum |
| Adler32.SwapNoticed | go/muduorpc/codec.go:35 | two different bytes less than 65521 apart, swapped, always change the checksum |
| Codec.WordRoundTrip | go/muduorpc/codec.go:22-36 | a length or checksum is read back as it was written, modulo 2^32 |
| Codec.MostSignificantFirst | go/muduorpc/codec.go:22-36 | words compare as their bytes do from the first one on |
| Codec.FrameBytes | go/muduorpc/codec.go:19-36 | a frame byte for byte: length, tag, payload, and the two sums of Adler-32 over tag and payload, high byte first |
| Codec.EmptyFrame | go/muduorpc/codec.go:19-36 | the twelve bytes of the empty payload's frame, which end in 0x02F20116 |
| Codec.Encode | go/muduorpc/codec.go:13-39 | the buffer filled in place is the frame: length, marker, payload, checksum of marker and payload |
| Codec.Reader.ReadFull | go/muduorpc/codec.go:64-79 | exactly n bytes and the rest left, or nothing left and end of file told apart from a short read |
| Codec.Reader.DecodeGeneral | go/muduorpc/codec.go:63-91 | for a tag of any length, takes the specified bytes and gives the specified message or error, the panic of crossing slice bounds included |
| Codec.Reader.Decode | go/muduorpc/codec.go:57-61 | the same for the tag "RPC0" |
| Codec.FrameDecodes | go/muduorpc/codec.go:63-91 | a frame with any tag within the limit gives the covered bytes from the fifth on, or the panic when there are fewer than four |
| Codec.DecodesExactlyFrames | go/muduorpc/codec.go:63-91 | with a tag of four bytes a message is decoded exactly when the input starts with its frame and it is within the limit, and just the frame is consumed |
| Codec.DecodesExactlyCarried | go/muduorpc/codec.go:63-91 | with any tag a message is decoded exactly when the input starts with a frame within the limit that carries it, and just the frame is consumed |
| Codec.RoundTrip | go/muduorpc/codec.go:13-91 | a frame decodes to its payload if and only if it is within the limit and its tag has four bytes |
| Codec.StreamRoundTrip | go/muduorpc/codec.go:13-91 | the frames of any list of payloads decode to that list, and what follows decodes as it would alone |
| Codec.StreamIsFrames | go/muduorpc/codec.go:63-91 | whatever the decoder makes of a stream, what it consumed before the failure were exactly the frames of what it returned |
| Codec.EndOfFileExactly | go/muduorpc/codec.go:64-79 | end of file is reported exactly on no input and on a valid length with nothing behind it |
| Codec.InvalidLengthExactly | go/muduorpc/codec.go:70-73 | exactly a length below the tag's and the checksum's or above 64 MiB is reported, and the input behind it is left |
| Codec.CutShortExactly | go/muduorpc/codec.go:64-79 | an unexpected end of file is reported exactly on input that stops within a length or within the bytes it announces |
| Codec.CleanStreams | go/muduorpc/codec.go:63-91 | a stream decodes to a list and then end of file exactly when it is the frames of that list, ended in one of these two ways |
| Codec.WrongByteRefused | go/muduorpc/codec.go:81-88 | one wrong byte after the length is always refused, with the marker or checksum error, and just that frame is lost, for any tag |
| Codec.SwappedBytesRefused | go/muduorpc/codec.go:81-88 | two different covered bytes less than 65521 apart, swapped, are always refused, for any tag |
| FileCache.AgreementKept | examples/collect/FileCache.h:70-145 | every operation keeps the list free of duplicates, equal to the map's keys and within maxFiles |
| FileCache.OwnershipKept | examples/collect/FileCache.h:32-46 | every operation keeps: a descriptor is open exactly when one entry, and only one, owns it |
| FileCache.FileCache.Destroy | examples/collect/FileCache.h:32-38 | closes a descriptor that is open, never one closed before |
| FileCache.FileCache.GetFile | examples/collect/FileCache.h:70-108 | returns the descriptor a file has, or else the one open() gives, and tries again for a kept file that could not be opened; the source's size assertions hold |
| FileCache.FileCache.CloseFile | examples/collect/FileCache.h:110-118 | the entry and its descriptor go, and nothing else |
| FileCache.FileCache.SetSentryFile | examples/collect/FileCache.h:129-132 | uses the sentry as a cached file |
| FileCache.FileCache.CloseUnusedFiles | examples/collect/FileCache.h:134-145 | the loop leaves the list up to the sentry, and nothing changes without one |
| FileCacheRuns.RunsKeep | examples/collect/FileCache.h:65-145 | in every run list, map and descriptors agree and the list is within maxFiles |
| FileCacheRuns.DescriptorIsOpened | examples/collect/FileCache.h:85-105 | in every run the descriptor of a file is the one open() gave when the file was last found missing |
| FileCacheRuns.LastMissIsLast | examples/collect/FileCache.h:86-94 | that is the last use before which it was not there |
| FileCacheRuns.KeptKeepsFirst | examples/collect/FileCache.h:74-82 | in every run a kept file has the first descriptor with which it could be opened |
| FileCacheRuns.CacheByRecency | examples/collect/FileCache.h:85-106 | in every run the list is in the order of last use |
| FileCacheRuns.CacheIsFront | examples/collect/FileCache.h:85-145 | in every run, closings included, the list is the front of the list of the cache without a limit |
| FileCacheRuns.HoldsLastUsed | examples/collect/FileCache.h:85-106 | with nothing closed by its users the cache holds exactly the maxFiles files used last |
| FileCacheRuns.MissingMeansUsed | examples/collect/FileCache.h:99-103 | a file not closed since its last use is missing only if maxFiles others were used since |
| FileCacheRuns.SentryKeepsExactly | examples/collect/FileCache.h:134-145 | in every run, while the sentry is there, closing keeps exactly the files last used no earlier than it; without it nothing is closed |
| FileCacheRuns.RecentIsThere | examples/collect/FileCache.h:85-106 | a file used no earlier than one with fewer than maxFiles others used since is there exactly when it was not closed since its last use |
| FileCacheRuns.RoundClosesUnused | examples/collect/ProcFs.cc:48-67 | a round that uses fewer than maxFiles other files ends with exactly the sentry and the files used since that were not closed after their last use |
| FileCacheRuns.SentryUsedAgain | examples/collect/FileCache.h:129-145 | a file used before the sentry's last use is closed even if it was used since the sentry was first set |

## Left out

- Sockets, event loops, thread creation and latches: each message becomes a step that delivers it once, at any time; no connection breaks or is made again.
- Protobuf serialization and reflection: bodies and payloads are opaque, and parsing is taken to invert them, so the parse error at the end of DecodeGeneral does not occur.
- ERROR messages, onDisconnect, a null callback or prototype in RpcChannel, and the balancer's handling of a decode error or of a message that is not a request.
- A shard whose call failed: the Go client then adds -1; Mapper takes every shard as answered. `verify` in client.go computes nothing that is used. `threshold` is a parameter, so both branches are covered for every value.
- QueensServer.BacktrackingSub: columns of 32 and more are not modelled, since shifting a 32-bit word that far has no defined result.
- Words: a word is the sequence of its bits, lowest first; the Value lemmas tie the bit operations to arithmetic.
- Kth.GetKth: the data does not change during a query, so what a search answers is a function of the guess. The range must be the true one, so there is some data; the `count` argument, which the source does not use, is left out.
- Median.Collector.Run: `sum`, the mean, and where the random draws come from are left out.
- Shuffle.Apply: the shuffle, the balancer and the RPC channel are machines over values, because any number of threads interleave; aliasing of request objects is the number of the buffer. The classes in Wordfreq and RpcObjects take the same steps in place.
- Wordfreq.ShuffleThread.Shuffle: the events are those of a machine with this worker alone; the steps of other workers touch none of its fields.
- ShuffleTheorems.GloballySorted: all workers use the same pivots and the same order of peers, and each worker shuffles once; a second shuffle to peers that already hold keys is left out, and so is ShuffleKey with no peers. The "Wrong partition" branch of ShardKey cannot be reached then; Wordfreq.WordCounter.ShardKey has it.
- Wordfreq.WordCounter.SortKey: the file "partition" that it writes is left out, and so are the elapsed times in the responses.
- Partition.Choose: nPivots has no int overflow, and the assertions are taken to be on: compiled without them the retry would go on with the wrong pivots.
- Histogram.GetHistogramFromKey: keys without any pivot index past the end in the source, so they are excluded.
- BalancerRuns.Progress: channels have no capacity limit, so a full channel that blocks its sender is not modelled.
- BalancerRuns.RepliesReachTheirClient: a backend answers a request at most once, with any body; ids are unbounded where the source has 64 bits. Closing a client's output while replies are outstanding is left out.
- RpcChannel.CallbackAtMostOnce: the ids of one channel are unbounded where the source has 64 bits.
- Codec.DecodesExactlyFrames: for tags of four bytes, such as "RPC0" and "SYS0"; Codec.DecodesExactlyCarried has the rest. The 32-bit wrap of len(tag)+4, for a tag of 4 GiB, is not modelled.
- FileCache.FileCache.GetFile: maxFiles is at least 1, since with 0 the entry just inserted is the one evicted and then read. What open() gives is a parameter: -1, or a descriptor that is not open.
- Reading /proc, the heartbeat, the zurg launcher, the code generators and the wrappers in other languages.
