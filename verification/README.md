# MIPT-MIPS: models and proofs

This project models parts of the MIPT-MIPS cycle-accurate simulator in Dafny and proves what they are
for. Every file is one module; `dafny verify dfyconfig.toml` checks all of them.

**The back end of the pipeline** (`Operations`, `FuncSim`, `DataBypass`, `Pipeline`). Decode, execute,
the long-latency unit, memory, branch and write-back are joined by ports of latency 1, and one value
`Core` holds everything that crosses a cycle boundary. `Next` performs one cycle on an arbitrary fetched
instruction; the latency L of the long unit is arbitrary in [2, 64), and what instructions compute is an
arbitrary function of their code and operands. `Timeline` defines, from the instructions issued and the
mispredictions found, which issues survive and what the sequential simulator does with them; `Invariant`
joins each part of the pipeline to that, the part that depends on values on top of the part that does
not. `Scheduling`, `StepRecord`, `StepData`, `StepStages` and `Flow` prove that every cycle of every run
keeps the second; `Timing` states what follows with no assumption at all: when and in which order
instructions are written back, what a misprediction discards, what the flush counter lets through, and,
exactly, when the scoreboard tracks. `StepIssue` and `Refinement` prove that a cycle keeps values right,
`Theorems` states what follows for whole runs, and `Separation`, `ShortRuns` and `Hazard` say when its
assumptions hold. `IssueTiming` says by operation when decode stalls, `Liveness` bounds every stall.
`RF`, `BypassingUnit` and `PerfSim` are the objects of the program, with the loops and the order of
statements of the source, each proved to perform the functions of the model.

**The front of the pipeline** (`Branching`, `FetchUnit`, `FrontEnd`, `ControlFlow`, `LostRedirect`).
Fetch goes where Branch, decode or the prediction of the last instruction sends it; predictions are
arbitrary. `Branching` says exactly which jumps Branch flags and where fetch has gone. `FrontEnd` keeps
the chain of survivors right, and `ControlFlow` concludes that the pipeline writes back the program,
address by address, as the sequential simulator does. That is false when an instruction that decode
redirects, and whose redirect could be the last word, stalls on its arrival: decode then drops the
instruction at the target. `LostRedirect` proves that this is what happens, and gives the program mult;
j TARGET, in which it does.

**Loads and stores** (`Endianness`, `LoadStore`, `MemoryRuns`): integers as bytes in both orders, stores
under a mask, loads with sign extension, and what a load finds over whole runs. A part of a word in the
big order is stored at its address but loaded from the end of the word there; that is the one case in
which a load does not give back what was stored.

What `Theorems` says of values holds for *safe* runs, which make two assumptions about the instructions
that no misprediction takes back. No register is traced as a second destination while its entry is
marked bypassible, since `trace_new_dst2_register` does not clear that mark. And a result is not
forwarded whose producer writes it under a mask that keeps some of the old word, since bypassing
forwards the whole first result. Neither can be dropped: `Hazard` gives a run of RISC-V instructions for
each (an addi, a csrrw and an add; two csrrs) that ends with another register than the sequential
simulator. And both are exact: `Theorems.SafeExactly` proves that a run is safe if and only if in every
cycle, for all that is not taken back, the scoreboard tracks every producer and every operand issued is
delivered with its sequential value. Tracking depends on the first assumption alone
(`Timing.TrackedExactly`). `RegisterFile` says which masks are harmless (the full one alone),
`Scheduling.TraceSecond` when tracing is right, and `Separation` gives a condition on the program alone
that makes all its runs safe.

**The hash table** (`Probing`, `OpenAddressing`, `DenseHashtable`) behind tag arrays and the instruction
cache: an array of buckets, tombstones, growth and shrinking with an arbitrary shrink factor and the
default occupancy of one half, for any hash function. Any sequence of operations answers as a finite map
would, and no probe loop can reach its assertion. In `resize_delta` the test that the table is already
large enough can never succeed; the model proves that branch dead.

**Caches** (`Recency`, `CacheGeometry`, `TagArray`, `PseudoLru`, `Replacement`, `CacheObjects`,
`InstrCache`, `InstrMemory`): least-recently-used and tree-based replacement, tag arrays with their
lookup index, the cache runner's discipline of writing only after a miss, and the cache of decoded
instructions that stays right under self-modifying code. The size check multiplies in 32 bits: it
accepts caches whose sets do not fill them and can divide by zero, and both cases are stated exactly.

**Ports** (`PortTiming`, `PortCapacity`, `PortObjects`, `PortRuns`): the ring buffer, stale data,
fan-out. The write counter restarts at zero, so the overload check admits one write more than the
bandwidth in every cycle but cycle 0, and the ring may overrun unnoticed; which writes fit and which
pass the check are both proved exactly, and so is the gap between them. `PortRuns` proves that a port of
positive latency is a line of delays, which is how `PerfSim` holds the ports of the pipeline.

**Arithmetic** (`Arithmetic`, `Powers`, `Multiplication`, `BitPermutation`, `RegisterFile`): high halves
of products from half-width products, HI:LO accumulation, and the bit-permutation networks, for all
widths. The multiplications are those of section 7.1 of The RISC-V Instruction Set Manual Volume I,
version 20191213.

**Guest memory** (`AddressSplit`, `GuestMemory`): the lazily allocated memory and the flat one against
one specification. They answer alike below 64 address bits; from 64 on, the limit `addr_mask + 1` of the
former wraps around to zero and nothing can be written to it. **Branch prediction** (`BranchPredictor`):
the two-level adaptive predictor.

Functions that only compute the specification have no row below; the row names the lemma or method that
says what they are good for.

## Model

| member | source | states |
|---|---|---|
| `Theorems.PipelineRefinesFuncSim` | simulator/func_sim/func_sim.cpp:44-56 | At every point of every safe run, in which only what no misprediction takes back has to be safe, the registers are those of the sequential simulator after the instructions written back so far, every one of them carried its sequential result, and memory is the sequential memory after all instructions that passed the memory stage |
| `Theorems.DrainedIsSequential` | simulator/modules/core/perf_sim.cpp:76-95 | Once nothing is in flight, registers and memory together equal the sequential state after the retired instructions |
| `Timing.WritebackTiming` | simulator/modules/decode/bypass/data_bypass.h:44-53 | In every run, safe or not, an instruction issued in cycle t and not flushed is written back exactly in cycle t + latency + 1; write-back cycles strictly increase in issue order, and the inputs of write-back never hold two instructions |
| `Timing.WrongPathHasNoEffect` | simulator/modules/branch/branch.cpp:28-62 | In every run nothing issued behind a mispredicted branch ever reaches the register file or the memory, now or later, whatever unit it was in |
| `Timing.LongUnitDiscardsExactly` | simulator/modules/execute/execute.cpp:57-81 | In every run the flush counter lets through exactly the long-unit entries made by instructions that were not taken back, each at its place and with its instruction, for every latency and any sequence of flushes |
| `Timing.ScoreboardTracksRun` | simulator/modules/decode/bypass/data_bypass.h:211-252 | As long as no second destination is traced over a bypassible entry, whatever is computed: in decode every entry is at the stage of its youngest in-flight producer and is reset one cycle after its write-back; a source that is ready gets that producer's own first result from the port it is sent to, whatever the mask, or is read from the register file when nothing is in flight |
| `Timing.ForwardedIsWrittenBack` | simulator/modules/decode/bypass/data_bypass_interface.h:90-95 | What is forwarded so is the first result with which that producer is written back later |
| `Theorems.SafeExactly` | simulator/modules/decode/bypass/data_bypass.h:211-252 | A run on well-formed instructions is safe if and only if in every cycle, for all that no misprediction takes back, every entry is tracked and every operand issued reaches execute with its sequential value |
| `Timing.TrackedExactly` | simulator/modules/decode/bypass/data_bypass.h:198-209 | In every run, whatever its masks and values, entries are tracked in every cycle if and only if no second destination is ever traced over a bypassible entry |
| `Theorems.DeliveredExactly` | simulator/modules/execute/execute.cpp:93-107 | As long as second destinations do no harm, operands that are not taken back are delivered in every cycle if and only if every producer forwarded to one writes the whole word |
| `Theorems.OperandsAreSequential` | simulator/modules/decode/decode.cpp:136-144 | In a safe run an entry in the register file reads the value of the sequential run, and a source that is ready delivers that value to execute exactly if what is forwarded replaces the word |
| `Theorems.ReachableInv` | simulator/modules/core/perf_sim.cpp:84-92 | The invariant joining scoreboard, ports, long unit, flush counter, register file and memory to the sequential run holds in every state of a run that has been safe so far |
| `Flow.ReachableFlow` | simulator/modules/core/perf_sim.cpp:84-92 | Its part that does not depend on values (what is in which port and when it is due, the long unit, the flush counter, the latency counter, the write-backs and accesses made) holds in every state of every run |
| `Flow.StepKeepsFlow` | simulator/modules/decode/decode.cpp:66-154 | One cycle of all stages keeps that part, whatever is fetched and computed |
| `Refinement.StepKeepsInv` | simulator/modules/decode/decode.cpp:66-154 | One cycle of all stages keeps the whole invariant, if whatever is unsafe in it is taken back |
| `Refinement.ResetInv` | simulator/modules/decode/bypass/data_bypass.h:80-89 | The invariant holds at reset |
| `ControlFlow.PipelineRunsProgram` | simulator/modules/core/perf_sim.cpp:84-92 | With fetch and any predictor, at every point of a safe run in which no redirect of decode that could be the last word is delayed, what has been written back is what the sequential simulator fetches and executes from the start address, with its registers |
| `ControlFlow.WritebacksFollowControl` | simulator/modules/fetch/fetch.cpp:67-104 | In every such run, safe or not, each instruction written back is the one of the program at the address the one before it went to |
| `FrontEnd.ReachableFront` | simulator/modules/fetch/fetch.cpp:186-215 | In every state every survivor, what waits in decode and what fetch is about to send come from where the survivor before them leads, as predicted, as decode redirected, or as Branch found |
| `FrontEnd.StepKeepsFront` | simulator/modules/decode/decode.cpp:66-154 | One cycle of fetch, decode and Branch keeps that |
| `LostRedirect.TargetIsLost` | simulator/modules/decode/decode.cpp:104-133 | When a jump that decode redirects stalls on its arrival, the instruction at its target is delivered in the cycle after the issue and dropped; decode goes on with what was predicted to follow it |
| `LostRedirect.TargetIsSkipped` | simulator/modules/decode/decode.cpp:111-121 | mult; j TARGET, with the default latency 3 and an empty predictor: the jump is followed by the write-back of the instruction behind the one at TARGET, and no misprediction is found |
| `Branching.FlaggedExactly` | simulator/modules/branch/branch.h:49-62 | Branch flags a jump if and only if the guess about it (the entry of the predictor, or without one what the operation suggests) was wrong in direction or target |
| `Branching.FollowedExactly` | simulator/modules/branch/branch.h:49-62 | Fetch has gone wrong after a jump if and only if Branch flags it and the flush is none of the listed needless ones |
| `Branching.UnflaggedIsFollowed` | simulator/modules/decode/decode.cpp:44-57 | What Branch does not flag was followed by its own successor, whether predicted or redirected by decode |
| `Branching.OthersAreFlagged` | simulator/modules/decode/decode.cpp:44-57 | Only for direct jumps and likely branches without an entry can the redirect of decode be the last word; all others are flagged in Branch again |
| `FetchUnit.Fetch.GetTarget` | simulator/modules/fetch/fetch.cpp:67-104 | The address of the port with the highest priority |
| `FetchUnit.Fetch.Clock` | simulator/modules/fetch/fetch.cpp:186-215 | Sends the instruction there with its prediction, holds the address, and goes on where predicted; a bubble writes nothing |
| `IssueTiming.StallsExactly` | simulator/modules/decode/bypass/data_bypass.h:44-53 | As long as second destinations do no harm, decode holds an instruction back if and only if an operand is neither there to be forwarded nor written back, by the age and operation of its producer, or the instruction would be written back no later than one issued before |
| `IssueTiming.CounterIsExact` | simulator/modules/decode/bypass/data_bypass.h:145-154 | In every run the latency counter says in decode exactly how far the write-back of the last survivor is away |
| `IssueTiming.WritebackByOperation` | simulator/modules/core/perf_instr.h:49-61 | Every instruction is written back L + 1 cycles after its issue if it divides, multiplies or accumulates, 3 if it accesses memory, traps explicitly or jumps, and 2 otherwise |
| `FuncSim.StepMemory` | simulator/func_sim/func_sim.cpp:44-56 | A store leaves in memory what the architecture stores of its second operand at the address and under the mask execution gives; nothing else changes memory |
| `FuncSim.StepRegisters` | simulator/func_sim/func_sim.cpp:44-56 | A step replaces the bits of its mask in its first destination, by what a load finds or execution gives, and the whole second destination, and no other register |
| `FuncSim.StepFirst` | simulator/func_sim/func_sim.cpp:44-56 | Under the full mask the first destination gets the whole of it |
| `MemoryRuns.PipelineGivesBackStored` | simulator/modules/mem/mem.cpp:22-53 | In a safe run, once a load is written back its register holds what the last store to its bytes stored, extended, whatever lies between |
| `MemoryRuns.LoadGivesBackStored` | simulator/func_sim/func_sim.cpp:44-56 | The same of the sequential simulator, after and across any instructions that spare the bytes |
| `MemoryRuns.DrainedHoldsStored` | simulator/memory/memory.h:178-205 | A drained pipeline holds the bytes of the last store to them, each in its place |
| `MemoryRuns.DrainedKeepsBytes` | simulator/memory/memory.h:178-205 | And bytes that nothing stored to are as at reset |
| `LoadStore.LoadAfterStoreExactly` | simulator/memory/memory.h:83-92 | A load of what a store left at its address gives it back, whatever memory held, if and only if the byte order is little or the access is a whole word |
| `LoadStore.PartInBigOrder` | simulator/memory/memory.h:83-92 | In the big order a one stored into a part of a zero word is not found again: stored at the address, loaded from the end of the word |
| `LoadStore.ExtensionKeepsNumber` | simulator/func_sim/operation.h:217-222 | What a load makes of its bytes is the same number, without a sign or in two's complement |
| `LoadStore.BytesStored` | simulator/memory/memory.h:178-191 | A store that masks all of its bytes leaves them there in the byte order |
| `LoadStore.MaskedStoredBits` | simulator/memory/memory.h:167-171 | Any other store replaces exactly the bits of its mask in the word at the address |
| `LoadStore.StoredElsewhere` | simulator/memory/memory.h:178-191 | And no store touches a byte outside its footprint |
| `Endianness.PackArray` | simulator/infra/endian.h:22-50 | The loops in both byte orders |
| `Endianness.UnpackArray` | simulator/infra/endian.h:53-77 | The loops in both byte orders |
| `Endianness.UnpackPacked` | simulator/infra/endian.h:22-77 | Unpacking gives back the bytes that were packed, in either order |
| `Endianness.PackUnpacked` | simulator/infra/endian.h:22-77 | Packing gives back the low bytes of the integer that was unpacked |
| `StepData.WritebackReads` | simulator/modules/writeback/writeback.cpp:51-61 | The three inputs of write-back together deliver exactly the one instruction that is due in the cycle, with the final result the run gave it, and never two |
| `StepIssue.OperandDelivered` | simulator/modules/execute/execute.cpp:93-107 | An operand that decode did not stall on is the operand of the sequential run, exactly if it is read or its producer replaces the word |
| `StepIssue.PortCarriesResult` | simulator/modules/decode/bypass/data_bypass_interface.h:90-95 | The port chosen for a bypass carries the first result of the tracked producer in the next cycle |
| `StepIssue.BypassDelivers` | simulator/modules/execute/execute.cpp:93-107 | So a source that is ready and matches a producer in flight is sent to a port and becomes the first result of that producer |
| `Scheduling.UpdateFollows` | simulator/modules/decode/bypass/data_bypass.h:227-249 | One update moves an entry that matches its producer at some age to one that matches it at the next age |
| `Scheduling.TraceSecond` | simulator/modules/decode/bypass/data_bypass.h:198-209 | Tracing a second destination gives an entry that matches its producer if and only if the entry was not bypassible before |
| `Hazard.StaleForwarding` | simulator/modules/decode/bypass/data_bypass.h:198-209 | addi x5, x0, 1; csrrw x5, csr, x5; add x7, x5, x0: all three retire and x7 holds 1 where the sequential run has 0; the second destination of csrrw is traced over a bypassible entry |
| `Hazard.MaskedForwarding` | simulator/func_sim/alu.h:346-351 | csrrs x5, csr, x0; csrrs x6, csr, x0: x6 ends as all ones where the sequential run has 0, although no second destination is at fault; the result forwarded was written under an empty mask |
| `Hazard.CsrrsSetsBits` | simulator/func_sim/alu.h:346-351 | By itself csrrs leaves the bitwise or of the control register and its operand there, and the old value in its other destination |
| `Separation.SeparateStreamIsSafe` | simulator/modules/decode/bypass/data_bypass.h:211-224 | If no register is both a second destination and a first destination of a bypassible instruction, and bypassible instructions write under the full mask, every run on that stream is safe |
| `Liveness.StallsAreBounded` | simulator/modules/decode/decode.cpp:125-132 | In every run, safe or not, an instruction that reaches decode is issued or flushed within latency + 2 cycles |
| `Liveness.WaitingHelps` | simulator/modules/decode/bypass/data_bypass.h:226-252 | While decode stalls, everything in flight comes one update nearer to the register file |
| `BypassingUnit.DataBypass.Update` | simulator/modules/decode/bypass/data_bypass.h:227-252 | The loop over the scoreboard array and the latency counter computes the specified next scoreboard |
| `BypassingUnit.DataBypass.TraceNewInstr` | simulator/modules/decode/bypass/data_bypass.h:212-224 | Traces first and second destination as specified; nothing else changes |
| `BypassingUnit.DataBypass.HandleFlush` | simulator/modules/decode/bypass/data_bypass.h:255-262 | Resets every traced entry and the latency counter |
| `BypassingUnit.DataBypass.MustStall` | simulator/modules/decode/bypass/data_bypass.h:44-53 | Stalls exactly if a source is neither in the register file nor bypassible, or the write-back slot is taken |
| `PerfSimulator.PerfSim.DecodeClock` | simulator/modules/decode/decode.cpp:66-154 | The statements of decode, in order, write exactly the ports and the scoreboard of the cycle specification |
| `PerfSimulator.PerfSim.ReadSource` | simulator/modules/decode/decode.cpp:136-144 | A source is read from the register file or else a bypass of it is commanded |
| `PerfSimulator.PerfSim.ExecuteClock` | simulator/modules/execute/execute.cpp:53-137 | The statements of execute write exactly the specified ports and flush counter |
| `PerfSimulator.PerfSim.BypassedOperand` | simulator/modules/execute/execute.cpp:97-105 | Reading a data port until it is empty gives the operand of the specification |
| `PerfSimulator.PerfSim.MemClock` | simulator/modules/mem/mem.cpp:22-53 | Memory and ports after the stage are the specified ones; what a load and a store do in them is FuncSim.StepRegisters and FuncSim.StepMemory |
| `PerfSimulator.PerfSim.BranchClock` | simulator/modules/branch/branch.cpp:28-71 | Ports and misprediction signal are the specified ones |
| `PerfSimulator.PerfSim.ReadInputs` | simulator/modules/writeback/writeback.cpp:51-61 | Collects the ready inputs in the order branch, memory, execute |
| `PerfSimulator.PerfSim.WritebackClock` | simulator/modules/writeback/writeback.cpp:64-78 | The register file and the bypass port after the loop are the specified ones |
| `PerfSimulator.PerfSim.ClockTree` | simulator/modules/core/perf_sim.cpp:84-92 | The stages in the order of the source together perform one specified cycle |
| `PerfSimulator.PerfSim.Clock` | simulator/modules/core/perf_sim.cpp:77-81 | The view of all objects after a clock is the next state of the specification |
| `PerfSimulator.PerfSim.RunCycles` | simulator/modules/core/perf_sim.cpp:60-74 | The loop over clocks produces a run of the specification, to which all theorems apply |
| `PerfSimulator.Ports.Tick` | simulator/infra/ports/ports.h:160-188 | One cycle of all ports as lines of delays: one place each, and latency - 1 places in the long unit |
| `RegisterFileObject.RF.WriteAccumulating` | simulator/func_sim/rf/rf.h:41-48 | Accumulating write with the carry into HI |
| `RegisterFileObject.RF.WriteBack` | simulator/func_sim/rf/rf.h:61-65 | Both destinations, as the write-back function |
| `RegisterFileObject.FuncSimulator.StepInstr` | simulator/func_sim/func_sim.cpp:44-56 | The statements of a step are the sequential step function, whose effect on memory and registers StepMemory and StepRegisters state |
| `RegisterFileObject.FuncSimulator.RunProgram` | simulator/func_sim/func_sim.cpp:84-95 | The loop is the sequential run |
| `RegisterFile.AccumulateProduct` | simulator/func_sim/rf/rf.h:61-65 | madd, maddu, msub, msubu change the pair HI:LO by exactly plus or minus the signed or unsigned 64-bit product modulo 2^64 |
| `RegisterFile.TwoHalvesAccumulate` | simulator/func_sim/rf/rf.h:78-95 | Two 32-bit additions or subtractions with a carry or borrow are one 64-bit one |
| `RegisterFile.FullMaskExactly` | simulator/func_sim/rf/rf.h:73-76 | A masked write leaves the value written, whatever was there, if and only if the mask is all ones |
| `RegisterFile.MaskedBit` | simulator/func_sim/rf/rf.h:73-76 | Every bit of a masked write is that of the value where the mask has a one and the old one elsewhere |
| `RegisterFile.WriteDstBits` | simulator/func_sim/rf/rf.h:61-65 | Bit by bit what the write-back of an instruction that does not accumulate leaves in every register |
| `RegisterFile.ForwardableExactly` | simulator/func_sim/rf/rf.h:61-65 | The write-back of a bypassible instruction leaves its first result in its first destination, for every register file, if and only if its mask is all ones |
| `RegisterFile.ReplacesExactly` | simulator/func_sim/rf/rf.h:61-65 | The same of an instruction with any operands: what bypassing forwards is what will be in the register if and only if the instruction always writes under the full mask |
| `Probing.ProbesCover` | external/sparsehash/internal/densehashtable.h:110 | Steps of 1, 2, 3, ... modulo a power of two visit every bucket within bucket-count probes |
| `Probing.ProbesDistinct` | external/sparsehash/internal/densehashtable.h:110 | No bucket is visited twice in that many probes |
| `OpenAddressing.ProbesEnd` | external/sparsehash/internal/densehashtable.h:865-888 | A probe loop that met only occupied buckets has made fewer probes than there are buckets, so the assertion in it cannot fail |
| `OpenAddressing.AbsentAtEmpty` | external/sparsehash/internal/densehashtable.h:871-876 | A key not met before the first empty bucket is in no bucket |
| `OpenAddressing.Fill` | external/sparsehash/internal/densehashtable.h:948-963 | Filling the free bucket on its path adds exactly one binding and keeps every key reachable |
| `OpenAddressing.Bury` | external/sparsehash/internal/densehashtable.h:1060-1078 | Putting a tombstone over a key removes exactly its binding and keeps every other key reachable |
| `OpenAddressing.ContentsSize` | external/sparsehash/internal/densehashtable.h:527 | The number of bindings is the number of occupied buckets less the tombstones |
| `OpenAddressing.ItemsList` | external/sparsehash/internal/densehashtable.h:316-323 | Iteration lists every binding exactly once |
| `DenseHashtable.MinBuckets` | external/sparsehash/internal/hashtable-common.h:290-303 | Returns a power of two, large enough for both demands, such that half of it would not be |
| `DenseHashtable.EmptyBucket` | external/sparsehash/internal/densehashtable.h:652-662 | The rehash probe ends at an empty bucket on the path of the key |
| `DenseHashtable.DenseHashtable.constructor` | external/sparsehash/internal/densehashtable.h:700-718 | An empty table of a fitting size |
| `DenseHashtable.DenseHashtable.FindPosition` | external/sparsehash/internal/densehashtable.h:865-888 | Ends, finds the key if and only if it is bound, and otherwise gives the first tombstone or empty bucket of its path |
| `DenseHashtable.DenseHashtable.Find` | external/sparsehash/internal/densehashtable.h:891-898 | Finds exactly the bound keys, with their values |
| `DenseHashtable.DenseHashtable.InsertAt` | external/sparsehash/internal/densehashtable.h:948-963 | Adds one binding to the map |
| `DenseHashtable.DenseHashtable.InsertNoResize` | external/sparsehash/internal/densehashtable.h:967-981 | Adds the binding, or keeps the value of a key that is present |
| `DenseHashtable.DenseHashtable.Rehash` | external/sparsehash/internal/densehashtable.h:644-671 | A fresh table of the asked size with the same map and no tombstones |
| `DenseHashtable.DenseHashtable.Rebuild` | external/sparsehash/internal/densehashtable.h:747-765 | The table replaced by a rehashed one keeps the map |
| `DenseHashtable.DenseHashtable.ShrinkTarget` | external/sparsehash/internal/densehashtable.h:562-566 | Halves as long as the shrink factor allows |
| `DenseHashtable.DenseHashtable.MaybeShrink` | external/sparsehash/internal/densehashtable.h:546-573 | Keeps the map; rebuilds the table exactly if it is above the default size and the live keys are below the threshold |
| `DenseHashtable.DenseHashtable.ResizeDelta` | external/sparsehash/internal/densehashtable.h:578-629 | Keeps the map and leaves room for delta more keys under half occupancy |
| `DenseHashtable.DenseHashtable.GrowthTarget` | external/sparsehash/internal/densehashtable.h:600-625 | At least twice the live keys and the new ones |
| `DenseHashtable.DenseHashtable.Resize` | external/sparsehash/internal/densehashtable.h:678-681 | Keeps the map and makes the room |
| `DenseHashtable.DenseHashtable.Insert` | external/sparsehash/internal/densehashtable.h:1006-1016 | insert and emplace: adds the binding, or keeps the value of a key that is present, through any rehash |
| `DenseHashtable.DenseHashtable.FindOrInsert` | external/sparsehash/internal/densehashtable.h:1041-1057 | Binds an absent key to the default and returns the bucket of the key |
| `DenseHashtable.DenseHashtable.Erase` | external/sparsehash/internal/densehashtable.h:1060-1078 | Removes exactly the key, says whether it was there, and has a removal considered for shrinking |
| `DenseHashtable.DenseHashtable.Clear` | external/sparsehash/internal/densehashtable.h:833-842 | Empties the map |
| `DenseHashtable.DenseHashtable.ClearNoResize` | external/sparsehash/internal/densehashtable.h:846-856 | Empties the map and keeps the table |
| `DenseHashtable.DenseHashtable.Iterate` | external/sparsehash/internal/densehashtable.h:316-323 | Lists every binding exactly once |
| `DenseHashtable.DenseHashtable.Perform` | external/sparsehash/internal/densehashtable.h:891-1078 | Any operation answers and changes the map as the finite-map meaning says |
| `DenseHashtable.DenseHashtable.PerformAll` | external/sparsehash/internal/densehashtable.h:891-1078 | Any sequence of operations, with whatever rehashing happens, answers as a finite map would |
| `Recency.RecentByUse` | simulator/infra/replacement/cache_replacement.cpp:34-43 | Move-to-front lists the items by falling time of last use |
| `Recency.TakenAreLatest` | simulator/infra/replacement/cache_replacement.cpp:34-51 | The first n of that list were all used after every other item |
| `TagArray.LruHoldsRecent` | simulator/infra/cache/cache_tag_array.cpp:220-267 | After any history a set holds exactly the `ways` most recently accessed distinct tags, and its lookup index is the inverse of its tag array |
| `TagArray.HeldAreLatest` | simulator/infra/cache/cache_tag_array.cpp:220-267 | Every tag a set holds was used after every tag it does not hold |
| `TagArray.CacheHoldsRecent` | simulator/infra/cache/cache_tag_array.cpp:220-267 | The same for every set of a whole cache on any trace |
| `TagArray.SetsAreSeparate` | simulator/infra/cache/cache_tag_array.cpp:220-267 | Each set is what its own part of the trace makes of it |
| `TagArray.HitsIncluded` | simulator/export/cache/runner.cpp:51-67 | On every trace, what hits in a cache hits in one with more ways and the same sets and lines |
| `TagArray.MoreWaysNoFewerHits` | simulator/export/cache/runner.cpp:51-67 | So more ways never give fewer hits |
| `CacheGeometry.AcceptedGeometry` | simulator/infra/cache/cache_tag_array.cpp:86-123 | Accepted sizes give power-of-two lines and sets; the sets fill the cache exactly if and only if the bytes of a set do not wrap around 32 bits |
| `CacheGeometry.AcceptedExactly` | simulator/infra/cache/cache_tag_array.cpp:86-123 | Sizes are accepted if and only if cache and line are powers of two, there are ways and at most 32 address bits, and the wrapped bytes of a set divide the cache |
| `CacheGeometry.AcceptedThoughWrapped` | simulator/infra/cache/cache_tag_array.cpp:111-122 | 2 bytes in 2^31 + 1 ways of 2 bytes are accepted, wrap around and do not fill the cache |
| `CacheGeometry.DividesByZero` | simulator/infra/cache/cache_tag_array.cpp:121-122 | With lines of 2^l bytes the last check divides by zero if and only if the tests before it pass and the ways are a multiple of 2^(32 - l) |
| `CacheGeometry.DividedByZero` | simulator/infra/cache/cache_tag_array.cpp:121-122 | 2 bytes in 2^16 ways of 2^16 bytes do that |
| `CacheGeometry.SplitInverts` | simulator/infra/cache/cache_tag_array.cpp:148-149 | Tag, set and offset put together are the masked address |
| `CacheGeometry.SameLine` | simulator/infra/cache/cache_tag_array.cpp:148-149 | Two addresses agree in tag and set if and only if they lie on one line |
| `CacheObjects.SimpleCacheTagArray.ReadTag` | simulator/infra/cache/cache_tag_array.cpp:220-232 | A hit touches its way, a miss changes nothing |
| `CacheObjects.SimpleCacheTagArray.WriteTag` | simulator/infra/cache/cache_tag_array.cpp:245-267 | Replaces the victim in tags, index and order as the set specification says |
| `CacheObjects.CacheRunner.AccountAccess` | simulator/export/cache/runner.cpp:51-58 | One access of the specification, counted |
| `CacheObjects.CacheRunner.AccountMiss` | simulator/export/cache/runner.cpp:60-67 | A write, and a compulsory miss for an address that never missed |
| `CacheObjects.CacheRunner.Run` | simulator/export/cache/runner.cpp:69-80 | Hits are those of the specification; compulsory misses are the distinct addresses that ever missed |
| `Replacement.LRU.constructor` | simulator/infra/replacement/cache_replacement.cpp:28-32 | The initial order |
| `Replacement.LRU.Update` | simulator/infra/replacement/cache_replacement.cpp:45-51 | Returns the last way and moves it to the front |
| `Replacement.PseudoLRU.Create` | simulator/infra/replacement/cache_replacement.cpp:83-87 | Refuses numbers of ways that are not powers of two |
| `Replacement.PseudoLRU.Touch` | simulator/infra/replacement/cache_replacement.cpp:89-98 | The upward loop over the node array turns the whole path of the way away from it, as in the tree |
| `Replacement.PseudoLRU.Update` | simulator/infra/replacement/cache_replacement.cpp:100-109 | The downward loop finds the way the tree points to, and turns its path away |
| `PseudoLru.RoundOfUpdates` | simulator/infra/replacement/cache_replacement.cpp:100-109 | From any tree, as many updates as there are ways return every way exactly once and restore the tree |
| `PseudoLru.RoundRestoresNodes` | simulator/infra/replacement/cache_replacement.cpp:75-109 | The same for the node array |
| `PseudoLru.TouchedIsSafe` | simulator/infra/replacement/cache_replacement.cpp:89-109 | After a touch, none of the next log2(ways) operations (updates and touches of other ways, in any mix) is an update that returns the way |
| `PseudoLru.OtherTurnsOne` | simulator/infra/replacement/cache_replacement.cpp:89-98 | Touching another way turns at most one node of a path towards its way |
| `PseudoLru.PointedIffTowards` | simulator/infra/replacement/cache_replacement.cpp:100-106 | A way is the next victim if and only if its whole path points towards it |
| `PseudoLru.TouchRefines` | simulator/infra/replacement/cache_replacement.cpp:89-98 | Touching in heap order is touching in the tree |
| `PseudoLru.UpdateRefines` | simulator/infra/replacement/cache_replacement.cpp:100-106 | Following the flags in heap order ends at the way the tree points to |
| `InstrCaching.AllocateKeeps` | simulator/infra/instrcache/instr_cache.h:89-98 | A new key takes the last slot; a live key is thrown out only if the cache is full, and then the one least recently used |
| `InstrCaching.EraseKeeps` | simulator/infra/instrcache/instr_cache.h:75-86 | Erasing removes the key and nothing else and frees its slot first in line |
| `InstrCaching.TouchKeeps` | simulator/infra/instrcache/instr_cache.h:62-65 | Touching keeps the contents and moves the key to the front of the order of use |
| `InstrMemory.InstrCache.constructor` | simulator/infra/instrcache/instr_cache.h:23-37 | An empty cache; touching all slots leaves the initial order |
| `InstrMemory.InstrCache.Find` | simulator/infra/instrcache/instr_cache.h:54-60 | Finds exactly the live keys with their values |
| `InstrMemory.InstrCache.Touch` | simulator/infra/instrcache/instr_cache.h:62-65 | Contents stay, the key is the last used |
| `InstrMemory.InstrCache.Update` | simulator/infra/instrcache/instr_cache.h:67-73 | Enters an absent key; a present one keeps its value |
| `InstrMemory.InstrCache.Erase` | simulator/infra/instrcache/instr_cache.h:75-86 | The statements on keys, index, storage and order |
| `InstrMemory.InstrCache.EraseKey` | simulator/infra/instrcache/instr_cache.h:75-86 | Removes the key; keys, index and order stay consistent |
| `InstrMemory.InstrCache.Allocate` | simulator/infra/instrcache/instr_cache.h:89-98 | Enters the key, throwing out the least recently used one only if the cache is full |
| `InstrMemory.InstrCache.AllocateSlot` | simulator/infra/instrcache/instr_cache.h:89-98 | The statements of the allocation |
| `InstrMemory.InstrMemoryCached.FetchInstr` | simulator/func_sim/instr_memory.h:61-75 | A fetch gives the decoding, at its address, of the four bytes that memory holds there now, whatever the cache holds |
| `InstrMemory.InstrMemoryCached.Run` | simulator/func_sim/instr_memory.h:54-76 | Under any interleaving of fetches and memory writes the cached memory decodes what an uncached one would |
| `InstrMemory.RefetchSees` | simulator/func_sim/instr_memory.h:61-75 | Of two fetches with a write in between, the second gives other raw bytes if and only if the write changed one of the four at the address |
| `InstrWords.FetchedWord` | simulator/func_sim/instr_memory.h:19-24 | The word fetched is made of exactly the four bytes from the address on, by their place value in either byte order |
| `InstrWords.FetchDependsOn` | simulator/func_sim/instr_memory.h:19-24 | Two memories give the same word if and only if they agree on those four bytes |
| `InstrWords.WriteIsSeen` | simulator/func_sim/instr_memory.h:19-24 | A write changes the word if and only if it changes one of them |
| `PortCapacity.FitsExactly` | simulator/infra/ports/ports.h:205-209 | For a reader that takes nothing, every write finds a free slot if and only if no window of latency + 1 successive cycles holds more writes than there are slots |
| `PortCapacity.AcceptedExactly` | simulator/infra/ports/ports.h:105-111 | The overload check passes exactly the runs with at most bandwidth + 1 writes in every cycle (bandwidth in cycle 0) |
| `PortCapacity.AcceptedOverrun` | simulator/infra/ports/ports.h:105-111 | For every latency and bandwidth there are writes that pass the check and find the ring full: bandwidth + 1 in each of latency + 1 cycles |
| `PortCapacity.SmallestOverrun` | simulator/infra/ports/ports.h:105-111 | At bandwidth 1 and latency 1, two writes in each of the cycles 1 and 2 |
| `PortCapacity.WithinIsServed` | simulator/infra/ports/ports.h:105-111 | A write within the bandwidth passes the check and finds a free slot, whatever has been read |
| `PortCapacity.DueAreWritten` | simulator/infra/ports/ports.h:175-181 | What is due at a reader at a cycle is exactly what was written latency cycles before, in order |
| `PortRuns.RunPort` | simulator/infra/ports/ports.h:133-188 | Over any run within the bandwidth, a writer and a reader in any order within a cycle, the reader skipping any cycles: what is read is the front of a line of delays of the latency |
| `PortRuns.LineIs` | simulator/infra/ports/ports.h:160-188 | That front is what was written latency cycles before |
| `PortObjects.PortQueue.Emplace` | simulator/infra/ports/port_queue/port_queue.h:59-65 | Appends at the back if a slot is free; without one, in a ring full or overrun already, replaces what the place at the back holds and counts on |
| `PortObjects.ReadPort.CleanupStaleData` | simulator/infra/ports/ports.h:183-188 | Drops exactly the values due in earlier cycles |
| `PortObjects.ReadPort.IsReady` | simulator/infra/ports/ports.h:160-164 | Ready if and only if a value written latency cycles ago is unread |
| `PortObjects.ReadPort.Read` | simulator/infra/ports/ports.h:166-171 | Returns the next such value in the order of writing, or the error |
| `PortObjects.ReadPort.EmplaceData` | simulator/infra/ports/ports.h:175-181 | Adds a value due latency cycles later; without a free slot the port has lost its first pending value |
| `PortObjects.WritePort.IncrementWriteCounter` | simulator/infra/ports/ports.h:105-111 | The counter and the overload check |
| `PortObjects.WritePort.Write` | simulator/infra/ports/ports.h:133-143 | An overload writes nothing; a write that passes the check reaches every reader with its own delay if each has a free slot |
| `PortObjects.WritePort.BasicWrite` | simulator/infra/ports/ports.h:213-222 | Every reader with a free slot has got the same writes afterwards |
| `PortObjects.WritePort.Feed` | simulator/infra/ports/ports.h:213-222 | The loop over the readers, the first one last |
| `Multiplication.HighUUIsHigh` | simulator/func_sim/multiplication.h:55-68 | For every even width the half-word algorithm returns floor(x * y / 2^width) |
| `Multiplication.NoOverflow` | simulator/func_sim/multiplication.h:57-66 | Every product and every sum of it fits into a word, so that no step wraps around |
| `Multiplication.HighSSIsHigh` | simulator/func_sim/multiplication.h:70-93 | The signed variant returns the high half of the two's complement product (MULH) |
| `Multiplication.HighSUIsHigh` | simulator/func_sim/multiplication.h:95-111 | The mixed variant returns the high half of the signed-by-unsigned product (MULHSU) |
| `BitPermutation.ReverseComposes` | simulator/func_sim/alu_primitives.h:108-118 | grev(grev(x, a), b) = grev(x, a xor b) |
| `BitPermutation.ReverseMeaning` | simulator/func_sim/alu_primitives.h:108-118 | grev moves bit i xor s to bit i |
| `BitPermutation.CombineComposes` | simulator/func_sim/alu_primitives.h:120-130 | gorc(gorc(x, a), b) = gorc(x, a or b) |
| `BitPermutation.CombineMeaning` | simulator/func_sim/alu_primitives.h:120-130 | gorc sets bit i exactly if the word has a bit at i xor t for some part t of the control |
| `BitPermutation.UnshuffleUndoes` | simulator/func_sim/alu.h:219-237 | riscv_unshfl undoes riscv_shfl for every control and width |
| `BitPermutation.ShuffleUndoes` | simulator/func_sim/alu.h:219-237 | And riscv_shfl undoes riscv_unshfl |
| `BitPermutation.ShuffleInterleaves` | simulator/func_sim/alu.h:229-237 | With all control bits set riscv_shfl interleaves the two halves of the word |
| `ShuffleIndex.ShuffleMeaning` | simulator/func_sim/alu.h:229-237 | For every control, bit j of riscv_shfl comes from the index whose binary digits are those of j after the exchanges of the digits m and m + 1 for each set control bit m, the lowest first |
| `ShuffleIndex.UnshuffleMeaning` | simulator/func_sim/alu.h:219-227 | riscv_unshfl takes it from the index after the same exchanges, the highest first |
| `ShuffleIndex.OneLevel` | simulator/func_sim/alu.h:219-237 | With the one control bit m both exchange the digits m and m + 1 of the index |
| `BitPermutation.BuildInterleavedMask` | simulator/func_sim/alu_primitives.h:76-85 | The loop builds the mask |
| `BitPermutation.BuildShuffleMask` | simulator/func_sim/alu_primitives.h:97-106 | The loop builds the mask |
| `BitPermutation.GenReverse` | simulator/func_sim/alu_primitives.h:108-118 | The loop runs the stages of the network |
| `BitPermutation.GenOrCombine` | simulator/func_sim/alu_primitives.h:120-130 | The loop runs the stages of the network |
| `BitPermutation.RiscvUnshfl` | simulator/func_sim/alu.h:219-227 | Levels upwards |
| `BitPermutation.RiscvShfl` | simulator/func_sim/alu.h:229-237 | Levels downwards |
| `AddressSplit.SplitInverts` | simulator/memory/hierarchied_memory.cpp:196-214 | get_addr puts the three parts of an address together to the address |
| `AddressSplit.SplitParts` | simulator/memory/hierarchied_memory.cpp:196-214 | The address is the set, page and offset by their place value, each below its bound |
| `AddressSplit.PartsInvert` | simulator/memory/hierarchied_memory.cpp:196-214 | And an address put together from parts in range splits into those parts |
| `AddressSplit.WriteChanges` | simulator/memory/hierarchied_memory.cpp:226-229 | A write changes exactly its own byte |
| `AddressSplit.AllocKeeps` | simulator/memory/hierarchied_memory.cpp:148-157 | Allocating a set or a page changes no byte that is read |
| `AddressSplit.MaskedReads` | simulator/memory/hierarchied_memory.cpp:216-224 | Address bits above the memory are ignored |
| `GuestMemory.LegalMapping` | simulator/memory/hierarchied_memory.cpp:29-43 | A mapping is accepted exactly if its parts are below 32 bits each and add up to the address, although the subtraction wraps around |
| `GuestMemory.RefusedExactly` | simulator/memory/hierarchied_memory.cpp:115-124 | A write within the memory that is not empty is refused if and only if the memory has 64 or more address bits, where the limit wraps around to zero |
| `GuestMemory.SameAnswers` | simulator/memory/hierarchied_memory.cpp:115-140 | Below 64 address bits, from zeros and for every legal mapping, the two memories answer any run of in-range reads and of writes alike, refusals included |
| `GuestMemory.WideAnswers` | simulator/memory/hierarchied_memory.cpp:115-140 | From 64 address bits on the lazily allocated memory refuses every write but an empty one at 0, and every byte read is zero |
| `GuestMemory.HierarchiedMemory.Create` | simulator/memory/hierarchied_memory.cpp:100-113 | Refuses illegal mappings; a new memory is all zeros |
| `GuestMemory.HierarchiedMemory.AllocAndWriteByte` | simulator/memory/hierarchied_memory.cpp:142-146 | Changes one byte |
| `GuestMemory.HierarchiedMemory.MemcpyHostToGuest` | simulator/memory/hierarchied_memory.cpp:115-131 | Overwrites exactly the given range or refuses what does not lie below the limit, which is addr_mask + 1 modulo 2^64 |
| `GuestMemory.HierarchiedMemory.MemcpyGuestToHost` | simulator/memory/hierarchied_memory.cpp:133-140 | Returns the bytes of the range, around the end of the memory |
| `GuestMemory.HierarchiedMemory.DuplicateTo` | simulator/memory/hierarchied_memory.cpp:165-172 | Copies the whole contents |
| `GuestMemory.HierarchiedMemory.PerformAll` | simulator/memory/hierarchied_memory.cpp:115-140 | Answers any run of operations, reads around the end included, as the specification with its own limit |
| `GuestMemory.PlainMemory.MemcpyHostToGuest` | simulator/memory/plain_memory.cpp:41-55 | Overwrites exactly the given range or refuses |
| `GuestMemory.PlainMemory.MemcpyGuestToHost` | simulator/memory/plain_memory.cpp:57-62 | Returns the bytes of the range, cut at the end of the memory |
| `GuestMemory.PlainMemory.PerformAll` | simulator/memory/plain_memory.cpp:41-62 | Answers any run as the specification, with reads cut at the end of the memory |
| `BranchPredictor.WrongOncePerPattern` | simulator/modules/fetch/bpu/bpentry.h:146-206 | If every outcome is a function of the history pattern, the number of wrong predictions is the number of patterns met that are followed by a taken branch |
| `BranchPredictor.WrongAtMost` | simulator/modules/fetch/bpu/bpentry.h:146-206 | So at most 2^DEPTH predictions are wrong in a run of any length |
| `BranchPredictor.PatternIsHistory` | simulator/modules/fetch/bpu/bpentry.h:161-180 | Bit i of the pattern is the outcome i steps back, not-taken before the start |
| `BranchPredictor.TurnsAfterTwo` | simulator/modules/fetch/bpu/bpentry.h:88-116 | An outcome turns the prediction for its history if and only if it was wrong and the prediction was wrong the last time too; the predictions for other histories stay |
| `BranchPredictor.WeakAfterWrong` | simulator/modules/fetch/bpu/bpentry.h:69-116 | The weak states are exactly those after a wrong prediction |
| `BranchPredictor.BPEntryAdaptive.Update` | simulator/modules/fetch/bpu/bpentry.h:194-198 | The table and pattern of the specification |
| `BranchPredictor.BPEntryAdaptive.Run` | simulator/modules/fetch/bpu/bpentry.h:188-198 | Counts exactly the mispredictions of the specification |

## Left out

- Misses of the instruction cache and prefetch: in `FetchUnit` every fetch hits. The theorems of the back end hold for an arbitrary stream of instructions into decode.
- ControlFlow.PipelineRunsProgram: does not cover runs in which a direct jump or likely branch unknown to the predictor stalls on its arrival, for which it is false (`LostRedirect.TargetIsSkipped`), nor programs that change their own code, delay slots, or predictors whose entries say taken of what is no jump.
- Traps and the flush at write-back: every modelled instruction is free of traps; a store one cycle behind a trapping instruction may already have reached memory, so the claim about wrong paths is one about mispredictions.
- Driver, kernel, checker, halting, statistics, logging, and the deadlock timer of write-back (`Liveness` bounds the stalls it watches for).
- LoadStore.BytesStored: does not model the exceptions of a store to address zero or outside the memory, nor accesses wider than a register.
- Theorems.PipelineRefinesFuncSim: does not cover runs that are not safe, for which it is false (`Hazard.StaleForwarding`: addi, csrrw, add; `Hazard.MaskedForwarding`: csrrs, csrrs). The exact condition under which every operand is the sequential one is `Theorems.SafeExactly`.
- RegisterFileObject.FuncSimulator.StepInstr: leaves out the fetch, the program counter and the count of idle instructions of a step; the program counter is `ControlFlow.PcAfter`.
- RegisterFileObject.FuncSimulator.RunProgram: is given its instructions, and no trap ends it.
- PerfSimulator.Ports.Tick: holds the ports as lines of delays in place of rings; that the two show the same is `PortRuns.RunPort`.
- 64-bit and 128-bit register files: registers are 32-bit words in the pipeline; the multiplications and bit networks are proved for all widths.
- Bits of a word in `BitPermutation` are a sequence of booleans; the conversion from and to machine integers is not modelled.
- The iterators of `lru_hash` in the LRU list: the list is a sequence in which a way is found by searching it.
- The hash table inside tag arrays and the instruction cache: their index is a finite map field, which is what `DenseHashtable` is proved to be.
- DenseHashtable.DenseHashtable.ResizeDelta: does not model overflow of `size_t` and the exceptions for it, nor the rounding of the shrink factor's floating-point product, which is a real number here.
- Erasing by iterator, range insertion, changing the deleted key, copy construction, serialization, allocation and object lifetimes of the hash table.
- The always-hit and infinite tag arrays, and pseudo-LRU replacement inside a tag array.
- TagArray.LruHoldsRecent: does not cover writes without a missed lookup.
- CacheObjects.SimpleCacheTagArray.WriteTag: does not cover tags equal to the two keys reserved by the lookup index, on which its hash table asserts; nor do AccountAccess, AccountMiss and Run of the runner.
- InstrMemory.InstrCache.Touch: does not cover an absent key, which the index operator would enter; its caller has looked the key up.
- InstrMemory.InstrMemoryCached.FetchInstr: does not cover a program counter of all ones, which is the key reserved for erased entries.
- PortObjects.ReadPort.EmplaceData: does not cover a reader whose ring has overrun before; what such a ring holds after a further write is stated by `PortQueue.Emplace`, but taking from it destroys values twice, which the source leaves undefined.
- PortObjects.WritePort.Write: likewise, and neither do BasicWrite and Feed.
- The port map, its initialization checks and the topology dump.
- GuestMemory.SameAnswers: covers reads inside the memory; past its end the two memories differ, as their PerformAll state.
- GuestMemory.PlainMemory.MemcpyGuestToHost: does not model a start address beyond the memory, where the source's subtraction wraps around; nor does PerformAll.
- GuestMemory.PlainMemory.constructor: does not cover 64 and more address bits, for which the shift that gives the size is undefined.
- `strlen`, `dump`, ELF loading and memory replicas.
- BranchPredictor.WrongAtMost: says nothing of outcome streams that are not a function of the last DEPTH outcomes.
- The one-bit, static and two-bit branch predictors on their own, and the predictor's tag array.
- Division, comparisons, counting and other straight-line operations of the arithmetic unit; overflow predicates, whose treatment of zero makes them inexact.
- Instruction decoders, opcode tables, disassembly, GDB and CEN64 wrappers, configuration.
