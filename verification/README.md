# Verified models of packet and benchmark cores

This Dafny project models the parts of the repository in which the order of operations, the
ownership of buffers, or bit-level arithmetic decides whether a result can be trusted, and proves
what they keep. `dafny verify dfyconfig.toml` checks all of it.

| files | what they model |
|---|---|
| `Pipeline`, `PipelineLiveness`, `PipelineDelivery`, `PipelineTxRing`, `PipelineSpin`, `PipelinePolls`, `PipelineApp` | the three-core packet pipeline: RX, worker and TX core over per-port rings, as an interleaved step system, and in the form with rings and arrays updated in place |
| `Devices`, `CryptoThroughput`, `CryptoLatency`, `CryptoCyclecount` | the three crypto benchmark runners, each with its own way of handling operations that the device refuses |
| `Chains`, `PrepareBufs`, `CompressEngine`, `CompressRuns` | the compression test: cutting the input into segment chains, the burst engine, trimming, and whole compress/decompress runs |
| `Scanning`, `MapLines`, `VersionMap`, `MapRewrite`, `MapLinker` | the script that rewrites linker version maps, down to its regular expressions, and what the maps say to a linker |
| `Streams` | distribution of forwarding streams over cores |
| `Fib`, `FibRoutes` | distribution of routes over prefix lengths, generation of the route table, batches |
| `Acl`, `AclText` | IPv6 networks as ACL fields, the texts that are taken for one, priorities of rule files |
| `Demo`, `PacketBytes` | the packet filter in the repository's own `main.c`, and which packets it judges by their own bytes |
| `Bits`, `Divisors` | C's bitwise operators on natural numbers; greatest common divisors |

What libraries and hardware do is a contract or a parameter. A ring is a first-in-first-out queue
with all-or-nothing bulk operations that holds one packet less than its size. A pool hands out any
of its free objects, all or nothing. A crypto device takes any prefix of a burst and gives back any
operations in flight, in any order; the compression device works first in, first out. How many
operations a device takes and returns at each call is given by a finite list of turns, so that
every run ends: `Stopped` means that the list was used up, which a device cannot cause that accepts
in enough turns and gives back in enough turns after that, with any pauses (`Steady`); every device
that never stops for good is of this kind for long enough lists (`FairIsSteady`). The codec, the
parser of a rule line, `strtoul`, `inet_pton`, `atoi`, random numbers, clock readings and what the
outside does with a packet are parameters as well. Both kinds of devices keep a history for the proofs
(`log`, `work`), so that the results say what a device was asked for and what it did.

Some facts of the code that the proofs brought out:

- The port count 1 is a power of two and is accepted, but `i ^ 1` is then outside the port table
  (`PeerInRange`); the pipeline results assume at least two ports, and equal read and write bursts
  of the worker, as in the bundled configuration.
- On the TX side the ring may be smaller than one worker burst plus one TX burst: what counts is that
  sum less the greatest common divisor of the two bursts. No core spins for ever on a fair run
  exactly if this is below the TX ring size and RX burst plus worker burst are within the RX ring
  size (`NoSpinIff`). With the bundled bursts of 64, any TX ring of more than 64 slots is enough. RX
  can also lock up behind a worker that spins, however large its own rings (`RxSpinIff`).
- Functions of a version map that stand outside any section disappear when the file has no stable
  section (`KeptIff`, `FunctionLost`). The check of the ABI version accepts digits of any script, but
  the section header made from them is only read back if they are ASCII (`RewriteTwice`,
  `SectionLost`). These results are about lines that the script recognises as a function: a line such
  as `foo; bar;` in a stable section is dropped by the first run (`TwoOnALineLost`).
- The batch loops of the FIB test print an average per batch and divide by its size, which is zero
  exactly when there are fewer routes than batches (`InBatches`, `FiveInTen`).
- The sum of configured routes is compared with the number of routes in 32 bits, so a sum that wraps
  around is accepted (`AtMostN`, `AcceptsWrappedSum`). How many entries the generator then makes is
  known from the configuration (`Entries`); it runs past the route table exactly if they are more than
  the table has (`FillTable`, `RunsPastTable`). Without a wrap-around it never does, but it leaves
  entries unfilled exactly if more than one default route is configured, or if configured routes and
  the prefixes of the other depths are together too few (`LeavesOneUnfilled`, `LeavesAllUnfilled`).
- A prefix is in the generated route table twice exactly if some depth is configured with more routes
  than it has prefixes (`RoutesDiffer`).
- More than 64 streams for a worker make the stream set-up write past the worker's row of the table
  (`InitLcoreInfo`, `RunsPastRow`).
- For a packet that ends before its ports, and has no byte that rules it out, the packet filter decides
  by bytes that an earlier packet left in the buffer (`DecidedIff`).
- A group or a prefix length that is missing altogether counts as zero in an IPv6 network of a rule
  file (`EmptyNet`).

## Model

| member | source | states |
|---|---|---|
| Pipeline.EveryRunConserves | dpdk-21.11/app/test-pipeline/runtime.c:44-154 | after every interleaving of the three cores, what was received on port i is, in order: packets out on i^1, the TX buffer, the TX ring, the worker's burst, the RX ring, the RX burst; rings stay within capacity and the TX buffer below one write plus one read |
| Pipeline.StepKeeps | dpdk-21.11/app/test-pipeline/runtime.c:51-153 | every single access of RX, worker or TX to shared state keeps that invariant |
| Pipeline.OutputIsInputPrefix | dpdk-21.11/app/test-pipeline/runtime.c:44-154 | what has left port i^1 is a prefix of what came in on port i |
| Pipeline.NextPortIsMask | dpdk-21.11/app/test-pipeline/runtime.c:51 | (i + 1) & (n_ports - 1) is round robin when n_ports is a power of two |
| Pipeline.PeerIsXor | dpdk-21.11/app/test-pipeline/runtime.c:99 | i ^ 1 exchanges neighbouring ports and is its own inverse |
| Pipeline.PeerInRange | dpdk-21.11/app/test-pipeline/config.c:69-86 | the exchange stays inside the port table exactly when the number of ports is even, so the accepted port count 1 is the exception |
| PipelineLiveness.FullRxRingHoldsBurst | dpdk-21.11/app/test-pipeline/runtime.c:63-68 | an RX core that spins on a full ring leaves at least one worker burst in it, given RX burst + worker burst <= RX ring size |
| PipelineLiveness.FullTxRingHoldsBurst | dpdk-21.11/app/test-pipeline/runtime.c:97-103 | a worker that spins on a full TX ring leaves at least one TX burst in it, given worker burst + TX burst - gcd of the two < TX ring size |
| PipelineLiveness.RxPushEnds | dpdk-21.11/app/test-pipeline/runtime.c:63-68 | on every fair run the RX spin ends, if the rings fit in that sense |
| PipelineLiveness.WorkerPushEnds | dpdk-21.11/app/test-pipeline/runtime.c:97-103 | on every fair run the worker spin ends, if the TX rings fit in that sense |
| PipelineLiveness.WorkerServes | dpdk-21.11/app/test-pipeline/runtime.c:85-95 | an RX ring that holds a worker burst is served |
| PipelineLiveness.TxServes | dpdk-21.11/app/test-pipeline/runtime.c:113-126 | a TX ring that holds a TX burst is served |
| PipelineDelivery.Delivered | dpdk-21.11/app/test-pipeline/runtime.c:44-154 | if the rings fit: on every fair run the first m packets of a port leave, in order, on its peer once a fixed number of further packets has come in |
| PipelineDelivery.WorkShrinks | dpdk-21.11/app/test-pipeline/runtime.c:85-104 | a worker or TX step never increases the number of stages still ahead of the packets, and one that moves a packet decreases it |
| PipelineDelivery.QuietRunEnds | dpdk-21.11/app/test-pipeline/runtime.c:85-153 | once reception stops, the number of steps that move packets is bounded by the work in hand, for every interleaving |
| PipelineDelivery.QuietResidue | dpdk-21.11/app/test-pipeline/runtime.c:88-132 | if the TX rings fit: when no packet is ever going to move again unless one comes in, the worker polls, each ring holds less than the burst that is read from it, and fewer than one burst per stage is left in a lane |
| PipelineDelivery.StuckIff | dpdk-21.11/app/test-pipeline/runtime.c:54-95 | a state in which RX spins while worker and TX find nothing to take is reachable exactly if RX burst + worker burst exceed the RX ring size, and then also without any buffer coming in twice |
| PipelineDelivery.StuckForEver | dpdk-21.11/app/test-pipeline/runtime.c:63-95 | no event leads out of such a state, and no packet comes in or goes out |
| PipelineTxRing.WorkerStuckIff | dpdk-21.11/app/test-pipeline/runtime.c:85-128 | for worker bursts that fit an RX ring: a state in which the worker spins while TX finds nothing to take is reachable exactly if worker burst + TX burst - gcd of the two reach the TX ring size, and then also without any buffer coming in twice |
| PipelineTxRing.WorkerStuckForEver | dpdk-21.11/app/test-pipeline/runtime.c:97-128 | no event leads out of such a state, and nothing is sent any more |
| PipelineSpin.RxSpinIff | dpdk-21.11/app/test-pipeline/runtime.c:54-128 | RX stays in its push for ever on some fair run, or on one on which no buffer comes in twice, exactly if RX burst + worker burst > RX ring size or worker burst + TX burst - gcd >= TX ring size |
| PipelineSpin.WorkerSpinIff | dpdk-21.11/app/test-pipeline/runtime.c:85-128 | the worker stays where it is for ever on some fair run, or on one on which no buffer comes in twice, exactly if worker burst + TX burst - gcd >= TX ring size and a worker burst fits an RX ring |
| PipelineSpin.TxNeverSpins | dpdk-21.11/app/test-pipeline/runtime.c:113-152 | TX never stays where it is for ever on a fair run |
| PipelineSpin.NoSpinIff | dpdk-21.11/app/test-pipeline/runtime.c:44-154 | no core spins for ever on any fair run exactly if RX burst + worker burst <= RX ring size and worker burst + TX burst - gcd of the two < TX ring size |
| PipelinePolls.PollsInTurn | dpdk-21.11/app/test-pipeline/runtime.c:51-113 | on every fair run, and for each core, the n-th poll counted from zero is of port n modulo the number of ports |
| PipelinePolls.PollsForEver | dpdk-21.11/app/test-pipeline/runtime.c:51-128 | whatever comes in or does not: on every fair run each core polls each port again and again, if the rings behind it fit |
| PipelinePolls.ReceivedIs | dpdk-21.11/app/test-pipeline/runtime.c:54-61 | what counts as received on a port is what its NIC has handed over in the polls of that port, in order |
| PipelinePolls.SentIs | dpdk-21.11/app/test-pipeline/runtime.c:134-152 | of what has left, the packets that count as sent are those that the NIC has taken of each write, in order; all others were freed |
| PipelinePolls.WireToWire | dpdk-21.11/app/test-pipeline/runtime.c:44-154 | if the rings fit and the NIC of the peer port takes all it is offered, the first m packets that the NIC of a port hands over are taken by the NIC of its peer, in order, once a fixed number of further packets has come in |
| PipelineApp.App.RxCore | dpdk-21.11/app/test-pipeline/runtime.c:54-68 | the in-place RX access is the RX step of the model and keeps the invariant |
| PipelineApp.App.WorkerCore | dpdk-21.11/app/test-pipeline/runtime.c:88-103 | the in-place worker access is the worker step of the model |
| PipelineApp.App.TxCore | dpdk-21.11/app/test-pipeline/runtime.c:117-152 | the TX access, on the 256-slot arrays, is the TX step of the model; the array never overflows |
| PipelineApp.Interleave | dpdk-21.11/app/test-pipeline/runtime.c:44-154 | any interleaving run on the application state ends where the model says, with every packet accounted for |
| CryptoThroughput.NewOpsFit | dpdk-21.11/app/test-crypto-perf/cperf_test_throughput.c:165-171 | the next burst needs at most as many new operations as the device just took, so they fit in front of the left-overs |
| CryptoThroughput.AccountExchanged | dpdk-21.11/app/test-crypto-perf/cperf_test_throughput.c:217-239 | free + left over + in flight stays the pool, without duplicates, over an enqueue and a dequeue in any order |
| CryptoThroughput.Runner.Gather | dpdk-21.11/app/test-crypto-perf/cperf_test_throughput.c:171-202 | new operations in front, left-overs moved down behind them in order: the burst is distinct, set up, and neither free nor in flight |
| CryptoThroughput.Runner.Exchange | dpdk-21.11/app/test-crypto-perf/cperf_test_throughput.c:217-247 | one enqueue call with the whole burst and one dequeue call, in this order; what the device accepted of the first is in flight, what it refused stays in place, and what enters the pool is exactly the answer to the second |
| CryptoThroughput.Runner.Run | dpdk-21.11/app/test-crypto-perf/cperf_test_throughput.c:154-267 | the calls to the device are those of the protocol: in each turn a burst of the test size or what is left of total_ops, beginning with new operations and ending with the refused ones of the turn before, and a dequeue call, then dequeue calls alone; enqd and deqd count what it took and gave. A completed run has put total_ops operations through the device and all of them back; wherever a run ends, every operation is free, left over or in flight once; it is stopped only by a device that is not steady, and the pool runs out only if it is smaller than total_ops and than one burst more than the device holds |
| CryptoThroughput.Runner.RunAll | dpdk-21.11/app/test-crypto-perf/cperf_test_throughput.c:153-267 | all burst sizes one after the other, each from a full pool |
| Devices.FairIsSteady | dpdk-21.11/app/test-crypto-perf/cperf_test_throughput.c:165-267 | a device that for ever accepts again and gives back again, after pauses of any length, is steady for every number of operations, so the runs complete |
| CryptoLatency.TrackedStart | dpdk-21.11/app/test-crypto-perf/cperf_test_latency.c:234-243 | starting the next slot with the clock reading of the call that took its submission keeps the one-to-one relation between held operations and open slots |
| CryptoLatency.TrackedEnd | dpdk-21.11/app/test-crypto-perf/cperf_test_latency.c:111-119 | time-stamping an operation closes the slot of its own submission with the clock reading of the call that brought it back, although the object has been recycled |
| CryptoLatency.Runner.StartSlots | dpdk-21.11/app/test-crypto-perf/cperf_test_latency.c:234-243 | the loop hands the next slots to the accepted operations in order, each started once with the reading in front of the enqueue call |
| CryptoLatency.Runner.EndSlots | dpdk-21.11/app/test-crypto-perf/cperf_test_latency.c:245-251 | the loop ends the slot of everything that came back once, with the reading behind the dequeue call |
| CryptoLatency.Runner.Turnaround | dpdk-21.11/app/test-crypto-perf/cperf_test_latency.c:219-232 | one enqueue call with the whole burst and one dequeue call; refused operations go straight back to the pool; the rest are free or in flight once |
| CryptoLatency.Runner.Run | dpdk-21.11/app/test-crypto-perf/cperf_test_latency.c:170-287 | after a completed run slot k holds, for every k, the start reading of the turn in which the device took its k-th operation and the end reading of the later or same turn in which that operation came back, and was written once each; the calls to the device are those of the protocol, and total_ops operations went in and came back; it is stopped only by a device that is not steady, and the pool runs out only if it is smaller than total_ops and than one burst more than the device holds |
| CryptoCyclecount.Runner.BuildOps | dpdk-21.11/app/test-crypto-perf/cperf_test_pmd_cyclecount.c:204-238 | fills the array with freshly allocated operations, window by window; fails only if the pool holds fewer |
| CryptoCyclecount.Runner.BenchOps | dpdk-21.11/app/test-crypto-perf/cperf_test_pmd_cyclecount.c:149-201 | the pool is as it was before, and a window fails to allocate exactly if the largest one is larger than the pool |
| CryptoCyclecount.Runner.BenchEnq | dpdk-21.11/app/test-crypto-perf/cperf_test_pmd_cyclecount.c:241-268 | the array is offered from the front, in bursts from where the device stopped taking, until all is in or nothing is taken; retries count the bursts that were taken in part |
| CryptoCyclecount.Runner.BenchDeq | dpdk-21.11/app/test-crypto-perf/cperf_test_pmd_cyclecount.c:271-292 | asks for what is missing, a burst at a time, until all is back; the front of the array is what came back, in any order, and nothing behind it changes; retries count the calls that brought less than they asked for |
| CryptoCyclecount.Runner.OneRound | dpdk-21.11/app/test-crypto-perf/cperf_test_pmd_cyclecount.c:341-383 | the calls of one round, for operations of the pool; the array put back is a permutation of what was allocated, so a round returns what it took |
| CryptoCyclecount.Runner.Run | dpdk-21.11/app/test-crypto-perf/cperf_test_pmd_cyclecount.c:306-391 | after the allocate-build-free loop and all rounds, no allocation having failed, ops_enqd = ops_deqd = total_ops and the pool is full; the device has been called round by round, each for as many operations as the ring has descriptors or are still to do, and the counts of operations and of retries are counts over those calls; it is stopped only by a device that takes something in fewer than total_ops rounds or does not give back a whole round |
| PrepareBufs.FindBufSize | dpdk-21.11/app/test-compress-perf/comp_perf_test_common.c:57-78 | a power of two above the input size and at most twice it below 2^15, a tenth more, truncated, from there on whatever the rounding of the product; for segment sizes that the options admit it is larger than the input and fits a packet buffer |
| PrepareBufs.DivCeilUnique | dpdk-21.11/app/test-compress-perf/comp_perf_test_common.c:236-237 | the number of segments is the only one that covers the data without an empty segment |
| PrepareBufs.FillChain | dpdk-21.11/app/test-compress-perf/comp_perf_test_common.c:356-431 | one input chain holds the next bytes of the input, every segment full but the last of the data |
| PrepareBufs.SpareChain | dpdk-21.11/app/test-compress-perf/comp_perf_test_common.c:433-491 | one output chain of the same number of segments, all at full length |
| PrepareBufs.CutLeft | dpdk-21.11/app/test-compress-perf/comp_perf_test_common.c:236-276 | data is left exactly while chains are left to fill, and the segments left cover it |
| PrepareBufs.PrepareBufs | dpdk-21.11/app/test-compress-perf/comp_perf_test_common.c:343-498 | with pools of total_segs segments it never fails, uses both up exactly, fills all chains but the last, and the chains flatten to the input |
| Chains.OverwriteReads | dpdk-21.11/app/test-compress-perf/comp_perf_test_verify.c:174-190 | bytes the device writes over a chain are what a reader of the chain finds, followed by what was there |
| Chains.TrimReads | dpdk-21.11/app/test-compress-perf/comp_perf_test_verify.c:258-277 | the trimming loop leaves exactly the first n bytes readable |
| Chains.FinishedReads | dpdk-21.11/app/test-compress-perf/comp_perf_test_verify.c:174-277 | reset, written and trimmed, a chain has the device's output as its packet, so the next pass reads the right bytes |
| Chains.FinishedAgain | dpdk-21.11/app/test-compress-perf/comp_perf_test_throughput.c:214-239 | untrimmed passes before the last one leave no trace |
| Chains.FinishedRestores | dpdk-21.11/app/test-compress-perf/comp_perf_test_verify.c:174-277 | a chain in the set-up layout that gets its own bytes back is restored to the last byte, data length and packet length |
| CompressEngine.TrimChain | dpdk-21.11/app/test-compress-perf/comp_perf_test_verify.c:258-277 | the trimming loop computes the trimmed chain and never runs off its end |
| CompressEngine.ResetChain | dpdk-21.11/app/test-compress-perf/comp_perf_test_verify.c:174-181 | the loop that resets an output chain |
| CompressEngine.SubmittedGrows | dpdk-21.11/app/test-compress-perf/comp_perf_test_verify.c:167-191 | operation j of a burst stands for buffer total_enq + j, so what the device takes continues the buffers in order |
| CompressEngine.Engine.Fill | dpdk-21.11/app/test-compress-perf/comp_perf_test_verify.c:139-191 | after the shift, allocation and set-up the burst stands for the next buffers in order; allocation never fails |
| CompressEngine.Engine.Enqueue | dpdk-21.11/app/test-compress-perf/comp_perf_test_verify.c:196-211 | left-overs stay behind what was accepted, counters advance by what was accepted |
| CompressEngine.Engine.DeviceWritesOne | dpdk-21.11/app/test-compress-perf/comp_perf_test_verify.c:182-190 | by contract of the device: the codec's output for the packet goes over the output chain if it has room, otherwise out of space |
| CompressEngine.Engine.ReadOutputs | dpdk-21.11/app/test-compress-perf/comp_perf_test_verify.c:235-253 | the outputs read back are appended in order; reading never fails |
| CompressEngine.Engine.Collect | dpdk-21.11/app/test-compress-perf/comp_perf_test_verify.c:213-281 | everything dequeued is read, trimmed and freed; out of space only if some output does not fit |
| CompressEngine.Engine.Pass | dpdk-21.11/app/test-compress-perf/comp_perf_test_verify.c:128-369 | for any partial acceptance: every buffer enqueued once in order, each packet worked on by the device once and in order and nothing else, outputs collected in order, output chains finished, every operation back in the pool; completes whenever everything fits and the device keeps moving |
| CompressRuns.AgainSame | dpdk-21.11/app/test-compress-perf/comp_perf_test_throughput.c:125-300 | a pass over what an untrimmed pass left comes to the same end as a pass over the original chains |
| CompressRuns.MainLoop | dpdk-21.11/app/test-compress-perf/comp_perf_test_throughput.c:125-300 | num_iter iterations, only the last of which trims, end like one trimming pass, the device having done the work of num_iter passes |
| CompressRuns.RoundTripPlan | dpdk-21.11/app/test-compress-perf/comp_perf_test_verify.c:397-430 | with a codec that gives these chains back, decompressed chains fit, are in the layout of the set-up again, and concatenate to the input |
| CompressRuns.Session.constructor | dpdk-21.11/app/test-compress-perf/comp_perf_test_common.c:224-498 | sizes, pools and buffers: ready for a run, every chain but the last of max_sgl_segs full segments, output segments longer than input segments by what the size search gives, and the input chains flatten to the input |
| CompressRuns.SlackFits | dpdk-21.11/app/test-compress-perf/comp_perf_test_common.c:62-78 | output segments of that size hold every compressed chain that is longer than its input by no more than the segments are; of chains that are full, no others |
| CompressRuns.Session.Compress | dpdk-21.11/app/test-compress-perf/comp_perf_test_verify.c:47-383 | a completed compress pass leaves the compressed input chains in the output chains and their concatenation as output; it runs out of space only when one of them does not fit |
| CompressRuns.Session.Decompress | dpdk-21.11/app/test-compress-perf/comp_perf_test_verify.c:47-383 | what comes back is the decompressed compressed input; for a codec that gives the chains back it never runs out of space and restores every input chain exactly |
| CompressRuns.Session.Verify | dpdk-21.11/app/test-compress-perf/comp_perf_test_verify.c:385-444 | the comparison tells whether the codec gave the input back; a success means that the device has compressed each chain once and then decompressed each result once; for a codec that gives each chain back, and any first-in-first-out device, it never fails, the input chains are as before, and with a steady device the run succeeds exactly if every compressed chain fits, as it does if none grows by more than the slack of the output segments |
| CompressRuns.Session.Throughput | dpdk-21.11/app/test-compress-perf/comp_perf_test_throughput.c:326-379 | the same for verification followed by two compress and two decompress loops: after a success the device has, behind the work of the verification, compressed all chains in every iteration of the first two loops and then decompressed them in every iteration of the other two, and nothing else |
| CompressRuns.Session.RunLevels | dpdk-21.11/app/test-compress-perf/main.c:413-445 | the same for any number of levels, one after the other, each starting from the same input |
| Scanning.ScanIsMatch | dpdk-21.11/devtools/update_version_map_abi.py:20-51 | reading once from left to right and always taking as much as possible finds a match of the three expressions exactly if there is one |
| Scanning.StripIs | dpdk-21.11/devtools/update_version_map_abi.py:73 | stripping takes white space off both ends and nothing else, in one way only |
| Scanning.ClassesAre | dpdk-21.11/devtools/update_version_map_abi.py:20-51 | the character classes of the expressions, character by character |
| MapLines.ExpressionsDecided | dpdk-21.11/devtools/update_version_map_abi.py:20-51 | the three scans decide the three regular expressions |
| MapLines.Exclusive | dpdk-21.11/devtools/update_version_map_abi.py:76-106 | no line is two of section end, section begin and function |
| VersionMap.ParseMapFile | dpdk-21.11/devtools/update_version_map_abi.py:17-108 | the line loop computes the parse function |
| VersionMap.ParseFinds | dpdk-21.11/devtools/update_version_map_abi.py:70-108 | what the parser returns, stated by the section each line is in: stable functions, experimental and internal lines in order, whether there is a stable section |
| VersionMap.SortedAscends | dpdk-21.11/devtools/update_version_map_abi.py:121 | sorting a set lists every line once in code point order |
| VersionMap.Sorted | dpdk-21.11/devtools/update_version_map_abi.py:121 | the sort used by the printer returns that list |
| MapRewrite.ReadBack | dpdk-21.11/devtools/update_version_map_abi.py:17-206 | what the parser reads back from the script's own output |
| MapRewrite.RewriteKeeps | dpdk-21.11/devtools/update_version_map_abi.py:190-206 | experimental and internal lines keep content, order and section; all stable functions are kept if there is a stable section; the section itself is read back exactly if the version is in ASCII digits |
| MapRewrite.KeptIff | dpdk-21.11/devtools/update_version_map_abi.py:53-108 | no recognised function line is lost exactly if there is a stable section or no function line outside one |
| MapRewrite.FunctionLost | dpdk-21.11/devtools/update_version_map_abi.py:193-196 | a file with one function and no section: the function is gone after the rewrite |
| MapRewrite.TwoOnALineLost | dpdk-21.11/devtools/update_version_map_abi.py:103-106 | a line with two functions on it, outside the copied sections, is read as nothing |
| MapRewrite.MergedOnce | dpdk-21.11/devtools/update_version_map_abi.py:111-132 | each stable function line of the input is in the merged section exactly once, and no other line |
| MapRewrite.RewriteTwice | dpdk-21.11/devtools/update_version_map_abi.py:165-206 | rewriting twice with the same version gives the same file as once, exactly if the version is in ASCII digits or there is no stable section |
| MapLinker.RewriteLinks | dpdk-21.11/devtools/update_version_map_abi.py:111-206 | what the rewritten file says to a linker: the node DPDK_major is there once exactly if there was a stable section; the symbols under global: in it are exactly the stable functions, each once and in code point order, the only pattern under local: is *, and the nodes are in the order of the script |
| MapLinker.CopiedLinks | dpdk-21.11/devtools/update_version_map_abi.py:135-163 | a copied section lists for a linker what its lines listed, each under the label in front of it |
| MapRewrite.SectionLost | dpdk-21.11/devtools/update_version_map_abi.py:90-108 | a file with one function in a stable section, rewritten twice for the version 22 in Arabic-Indic digits, is empty |
| MapRewrite.GenerateStable | dpdk-21.11/devtools/update_version_map_abi.py:111-132 | the printer writes the stable block, whose meaning for a linker RewriteLinks states |
| MapRewrite.GenerateVerbatim | dpdk-21.11/devtools/update_version_map_abi.py:135-163 | the two copying printers write their block, blank lines without trailing white space |
| MapRewrite.Update | dpdk-21.11/devtools/update_version_map_abi.py:190-206 | the script, in place, computes the rewrite, whose meaning for a linker RewriteLinks states |
| Streams.Balanced | dpdk-21.11/app/test-flow-perf/main.c:1885-1903 | the loads of any two workers differ by at most one stream, the first workers having more, and none is idle if there are as many streams as workers |
| Streams.QuotasSuffice | dpdk-21.11/app/test-flow-perf/main.c:1885-1903 | the quotas add up to the number of streams, or to the number of workers if that is larger |
| Streams.LcoreInfos.Size | dpdk-21.11/app/test-flow-perf/main.c:1885-1903 | the quota loop gives every worker its quota |
| Streams.LcoreInfos.NextHome | dpdk-21.11/app/test-flow-perf/main.c:1918-1924 | the test on stream_id and quota moves on exactly when the current worker is full, and never past the last one |
| Streams.LcoreInfos.InitLcoreInfo | dpdk-21.11/app/test-flow-perf/main.c:1852-1932 | the writes stay inside the table exactly if no quota exceeds MAX_STREAMS; then the finished table holds every stream in its home and nothing else, the statistics core and the workers with streams are marked as such, and every other core keeps its mode |
| Streams.RunsPastRow | dpdk-21.11/app/test-flow-perf/main.c:1852-1932 | one port with 65 queues and one worker: the last stream is behind the row |
| Streams.LcoreInfos.EachStreamOnce | dpdk-21.11/app/test-flow-perf/main.c:1914-1932 | each port and queue is in exactly one slot of one worker |
| Streams.LcoreInfos.UsedSlots | dpdk-21.11/app/test-flow-perf/main.c:1914-1932 | a worker uses its first slots, as many as its load, which is within its quota |
| Streams.LcoreInfos.InPortOrder | dpdk-21.11/app/test-flow-perf/main.c:1917-1932 | worker by worker and slot by slot, the streams are in the order of ports and queues |
| Fib.Config.CompleteDistrib | dpdk-21.11/app/test-fib/main.c:170-216 | refused exactly if the configured routes, summed up in 32 bits, exceed n; never divides by zero; every other depth gets its share or all its prefixes; together the other depths get all that is left, or all their prefixes if these are fewer |
| Fib.PercentIs | dpdk-21.11/app/test-fib/main.c:181-191 | a depth configured in percent gets that part of the routes, rounded down, exactly if the product stays within 32 bits, and never more |
| Fib.EvenlyShared | dpdk-21.11/app/test-fib/main.c:201-213 | the depths that are not configured are treated alike: a longer prefix length gets no fewer routes than a shorter one, and at most one more than one that has prefixes to spare; depth d gets at most 2^min(d,63) |
| Fib.SharedSum | dpdk-21.11/app/test-fib/main.c:201-213 | equal shares, capped depth by depth, give away all that is left exactly as long as the caps together allow it |
| Fib.DefaultDistrib | dpdk-21.11/app/test-fib/main.c:1276-1283 | without configured routes: exactly n routes, spread over the depths in this even way |
| Fib.AtMostN | dpdk-21.11/app/test-fib/main.c:181-200 | an accepted distribution has at most n routes exactly if the configured sum does not exceed 32 bits |
| Fib.AcceptsWrappedSum | dpdk-21.11/app/test-fib/main.c:181-200 | 4294967295 + 2 configured routes are accepted as part of 1000 |
| Fib.GenRandomRt4 | dpdk-21.11/app/test-fib/main.c:322-346 | entries are filled one after the other, depth by depth, each the route drawn from its own share of the prefixes of its depth, with its own next hop; the writes stay inside the table exactly if the entries to fill do not exceed it |
| FibRoutes.RouteIsPrefix | dpdk-21.11/app/test-fib/main.c:130-137 | a drawn route is a prefix of its depth: shifted into place it keeps all its bits and has no others |
| FibRoutes.RoutesAscend | dpdk-21.11/app/test-fib/main.c:333-346 | of a depth with no more routes than prefixes, a later route has a higher address, whatever is drawn |
| Fib.EntriesArePrefixes | dpdk-21.11/app/test-fib/main.c:322-346 | every entry that is made is a prefix of its depth, with a next hop that fits the size asked for |
| Fib.RoutesDiffer | dpdk-21.11/app/test-fib/main.c:322-346 | no prefix is in the table twice exactly if no depth has more routes than prefixes, whatever is drawn |
| Fib.FillsTable | dpdk-21.11/app/test-fib/main.c:327-346 | the generator fills as many entries as were counted exactly if at most one default route was asked for |
| Fib.LeavesOneUnfilled | dpdk-21.11/app/test-fib/main.c:327-346 | with two default routes configured among 1000, 999 entries are filled |
| Fib.FillTable | dpdk-21.11/app/test-fib/main.c:1276-1292 | for any configuration: the number of entries made is Entries, a function of the configuration; they stay inside the table exactly if that is at most its size, and are then all different exactly if no depth has more routes than prefixes; without a wrap-around they always stay inside, and fill it exactly if configured routes and caps of the other depths reach its size and at most one default route is asked for; with depth 32 not configured they stay inside exactly if the configured sum does not wrap around |
| Fib.RunsPastTable | dpdk-21.11/app/test-fib/main.c:322-346 | the accepted configuration with 4294967295 + 2 routes makes the generator run past a table of 1000 entries |
| Fib.LeavesAllUnfilled | dpdk-21.11/app/test-fib/main.c:1276-1292 | with all depths configured to no routes, none of 1000 entries is made |
| Fib.FillDefault | dpdk-21.11/app/test-fib/main.c:1276-1292 | the default table is filled to its last entry, and no prefix is in it twice |
| Fib.InBatches | dpdk-21.11/app/test-fib/main.c:894-908 | every route is visited once, in order, in batches that differ by at most one, up to the first route that is refused; a division by zero happens exactly if there are fewer routes than batches |
| Fib.FiveInTen | dpdk-21.11/app/test-fib/main.c:894-908 | five routes in ten batches: division by zero |
| Acl.WordsKeepBits | dpdk-21.11/app/test-acl/main.c:392-415 | writing eight groups as four words moves no bit |
| Acl.SplitKeepsMeaning | dpdk-21.11/app/test-acl/main.c:562-575 | for every prefix length up to 128, matching the four words under their own lengths is agreeing on the first m bits |
| Acl.NetMatches | dpdk-21.11/app/test-acl/main.c:550-578 | the same in terms of the groups of the text form of an address (RFC 4291, section 2.3) |
| Acl.ParseIpv6Net | dpdk-21.11/app/test-acl/main.c:550-578 | a text that is accepted sets the fields to its groups and prefix length; a refused one leaves them alone |
| AclText.NetText | dpdk-21.11/app/test-acl/main.c:550-578 | for every strtoul that stops inside its field: accepted are exactly eight hexadecimal numbers of 16 bits and a prefix length up to 128 with their delimiters, and nothing else |
| AclText.StandardHonest | dpdk-21.11/app/test-acl/main.c:21-31 | the strtoul of the C standard, section 7.22.1.4, is of this kind |
| AclText.PrintedNet | dpdk-21.11/app/test-acl/main.c:550-578 | a network printed with eight hexadecimal groups and a decimal prefix length is accepted as what was printed |
| AclText.EmptyNet | dpdk-21.11/app/test-acl/main.c:21-31 | eight empty groups and an empty prefix length are accepted as zeros |
| Acl.AddCbRules | dpdk-21.11/app/test-acl/main.c:752-794 | comment and blank lines do not count; rule line j gets priority RTE_ACL_MAX_PRIORITY - j and number j; stops at the first line that is no rule or is refused |
| Acl.SkipLineIs | dpdk-21.11/app/test-acl/main.c:478-490 | a line does not count exactly if it is white space up to its end or up to a number sign |
| Acl.RuleLinesAre | dpdk-21.11/app/test-acl/main.c:752-794 | the rule lines are all the other lines, each once, in the order of the file |
| Acl.FirstLineWins | dpdk-21.11/app/test-acl/main.c:781-783 | the matching rule of highest priority is the first matching rule line of the file, and the result is its number |
| Demo.Filter.Add | main.c:105-134 | a new rule goes in front of the list |
| Demo.Filter.Match | main.c:137-156 | a flow matches exactly if some rule of the list does |
| Demo.Filter.AddAll | main.c:730-734 | the list holds exactly the configured rules |
| Demo.OrderIrrelevant | main.c:730-734 | the order of the rules does not matter |
| Demo.PathOrder | main.c:730-734 | the packets on the forward path are the same for any insertion order of the rules |
| Demo.PathIsBytes | main.c:137-156 | on bytes: a packet is on the forward path exactly if it is TCP or UDP over IPv4 and some argument names the address in its bytes 30 to 33 and the destination port, or for a source rule the address in bytes 26 to 29 and the source port, the ports found behind the header length |
| Demo.ParseRules | main.c:601-656 | all arguments are well formed and at most 64, or none is taken |
| Demo.Conserved | main.c:318-422 | each received buffer is freed once or with the kernel once, and received = forwarded + kernel + undelivered |
| Demo.App.ShouldForward | main.c:320-372 | the tests on one packet decide whether it belongs on the forward path |
| PacketBytes.DecidedIff | main.c:326-404 | the path depends on the packet's own bytes alone, for all rules, exactly if one of them rules it out or the packet reaches to the end of the addresses and of the ports behind the header length |
| Demo.App.Process | main.c:320-419 | one packet, with its ports found behind the header length of RFC 791, section 3.1, meets the fate that its bytes and the rules determine |
| Demo.App.LcoreMain | main.c:296-422 | for every sequence of bursts, the log of packets handed to the forward interface is exactly the packets on the forward path, in order of arrival, and counters and buffers are as the fates say |
| Demo.RunFilter | main.c:296-422 | from the text of the rule arguments and the bytes of the packets: accepted exactly if there are 1 to 64 arguments and all are well formed; then the packets handed to the forward interface are exactly those that some argument asks for, those for the kernel exactly the others as far as it takes them, and the forwarded ones those that were written whole, all in order of arrival |

## Left out

- Chains of segments are values: the pointers that link mbufs, and sharing of buffers between chains, are not modelled, so the engine updates whole chains in its arrays instead of single mbuf headers.
- Segment buffers attached from outside (`use_external_mbufs`) and allocation failures in the set-up.
- CompressEngine.Engine.Pass: statuses other than success and out of space, the stop flag, device error counters and the clean-up of operations in flight on those exits are not modelled; the code then returns success for other bad statuses.
- CompressRuns.MainLoop: the throughput engine does not copy the output and looks at the status only in its last iteration; the model collects and checks it every time, and shows that after a successful verification there is nothing to find.
- CompressRuns.Session.Throughput: stated, like the run over levels, for codecs that give these input chains back; with any other codec the input chains of the next loop need no longer have the layout of the set-up.
- PrepareBufs.PrepareBufs: inputs of more than UINT32_MAX bytes, whose size the code truncates, are excluded; so is the empty input, for which there is no chain.
- CryptoCyclecount.Runner.Run: assumes the pool to hold at least one operation per descriptor, as the option check demands (cperf_options_parsing.c:1206-1212); the cycle counts, and the wrap-around of the 32-bit loop counter for total_ops within one ring of 2^32, are not modelled.
- The crypto and compression cycle-count and verify runners not named above: they place left-overs differently and do not share these invariants.
- Operation contents in the crypto tests (digest, multi-segment buffers, private memory layout), linearisation, warm-up and statistics.
- VersionMap.ParseMapFile: takes the lines as text mode delivers them (line ends already translated); the checks of the file name and of the version argument are left out; where the check admits decimal digits of any script, the model admits any character outside ASCII that is not white space.
- Fib.GenRandomRt4: the spacing of routes is in exact arithmetic, without the rounding of `double`; what the code writes behind the table is not modelled, only whether it does; IPv6 generation, shuffling, the parser of configured distributions and the FIB and LPM themselves are left out.
- Streams.LcoreInfos.InitLcoreInfo: assumes at least two cores, as the program does (main.c:2144-2146 of the same test); what is overwritten behind a row is not modelled, only whether it happens.
- Acl.ParseIpv6Net: byte order conversions of trace records, IPv4 networks and the other fields of a rule are not modelled; neither is the classifier, of which only the rule with the highest priority is used.
- Demo.App.Process: the kernel request handler is not modelled, nor several cores that share the plain counters; header fields are read from the buffer memory whether or not the packet is that long, as the code does.
- The flow-perf rule generators, option tables, EAL start-up, port, KNI, TUN and raw socket set-up, and printing.
