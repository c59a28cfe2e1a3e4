# Snowflake-style identifier generator and factory, in Dafny

The system issues 64-bit identifiers. Each one packs three fields, most
significant first: an interval count, a machine id and a sequence number.

- `NewIDGenerator` validates the requested field widths and repairs zero or
  non-positive settings.
- `GetNextID` advances the counters and packs them with `newID`.
- A factory hires one generator per worker. Each worker produces a quota of
  identifiers into a priority queue ordered by (timestamp, value), and one
  consumer drains that queue.

The model is functional, and Go's integer semantics are written out
explicitly:

- `GoInts`: `uint64`/`int64` wrap-around, `<<` giving 0 for a count of 64 or
  more, and bitwise `|` over unbounded integers.
- `IdLayout`: the packing and its inverse.
- `IdGenerator`: construction and one call as a pure step.
- `GeneratorRun`: runs of successive calls.
- `IdQueue`: the queue's comparator and slice primitives.
- `IdFactory`: factory construction, hiring, producing and consuming.
- `MachineIdOverflow`: one defect in construction and its correction.

Some inputs of the source become parameters:

- The clock: `now` and `after` readings per call, and a construction time.
- The outbound-address lookup: `Option<u16>`, per worker `lookup(i)`.
- The sleep: returned as a duration instead of performed.

The factory is generic in the step function `next`. Its theorems hold for
any `next` with the one-call guarantee `StepsForward`, which is proved for
`GetNextID`.

## Model

| member | source | states |
|---|---|---|
| IdLayout.PackIsPositional | generator.go:180-184 | When every field fits its width, OR-ing the shifted fields equals positional arithmetic: no bit is lost or shared. |
| IdLayout.UnpackPack | generator.go:180-184 | Reading the three fields back from a packed identifier returns the fields that went in, whenever they fit. |
| IdLayout.PackInjective | generator.go:180-184 | Different fitting field triples pack to different identifiers. |
| IdLayout.PackMonotone | generator.go:180-184 | For one machine, identifiers are ordered like (interval count, sequence number) compared lexicographically. |
| IdLayout.PackExamples | generator_test.go:80-91 | Layout 38/16/10, machine 1: fields 0/1/0 give 1024, and 9/1/1024 give 9·2^26 + 1024 (the oversized sequence number is OR-ed into the machine field). |
| IdGenerator.NewIDGenerator | generator.go:73-137 | Fails with the lookup error exactly when the address lookup fails, even for a given configuration. Otherwise fails exactly when a raw width is 64 or more or the raw widths sum past 64. A constructed generator is valid, with zero counters and the construction time as interval start. |
| IdGenerator.NewIDGeneratorRepairs | generator.go:99-134 | Each field is repaired on its own: zero widths become 38/16/10 and a non-positive rate becomes 1 ms. A zero machine width keeps the raw machine id unchecked. An overflowing id is replaced by the address-derived one, with the width left 0. |
| IdGenerator.NewIDGeneratorExamples | generator_test.go:21-63 | 38/16/10 is kept as given, 0/0/0 becomes 38/16/10, 40/16/10 is rejected, 15/5/8 is accepted, and with no configuration the generator gets the default layout and the address-derived id. |
| IdGenerator.RepairedWidthsCanExceed64 | generator.go:95-110 | Validation looks only at raw widths: 40/0/24 is accepted and then used as 40/16/24, 80 bits in all. |
| IdGenerator.ValidLimits | generator.go:157-162 | For a valid generator, the shifted limits compared against are 2^timeBit and 2^sequenceBit − 1, so saturation means the sequence number is at its largest value. |
| IdGenerator.Step | generator.go:140-177 | An issued identifier is the packed value of the state the call leaves, stamped with the post-call reading. A call refused for a clock regression leaves a generator with a positive rate as it was. |
| IdGenerator.StepAdvances | generator.go:147-171 | An issuing call keeps the generator valid and its layout unchanged. It moves (interval count, sequence number) strictly forward, and a sleep lasts more than 0 and at most one interval. |
| IdGenerator.StepSequence | generator.go:147-171 | A saturated sequence resets to 0 and the interval count rises by exactly one; otherwise the sequence rises by one. The call sleeps exactly when saturation comes before the interval has elapsed, and the sleep never moves the interval start. |
| IdGenerator.StepClockRegression | generator.go:144-154 | When the difference of the readings is an int64, a call fails for a clock regression exactly when `now` is before the interval start, and such a failure leaves the generator unchanged. |
| IdGenerator.StepExpiry | generator.go:147-159 | A call fails as expired exactly when the clock has not gone back and the interval count, after the possible bump, has reached 2^timeBit. |
| IdGenerator.ExpiryIsPermanent | generator.go:147-159 | Once the count has reached 2^timeBit, a call never issues, keeps the layout (machine id, rate and all three widths), and moves the count up by at most one. |
| IdGenerator.ExpiredCallState | generator.go:147-159 | A call on a valid generator that fails as expired leaves the count at or past 2^timeBit, at most one above where it was, with the layout unchanged. |
| IdGenerator.StepReachesLimitAtZero | generator.go:157-171 | A call that issues an identifier and leaves the interval count at 2^timeBit leaves the sequence number at 0: only the saturated-sequence sleep gets there. |
| GeneratorRun.RunCounts | id_factory.go:129-138 | A run makes at most `count` calls. It makes all of them unless one fails, and every call except a failing last one issues an identifier. |
| GeneratorRun.StateFieldsFit | generator.go:180-184 | A valid state whose widths sum to at most 64 and whose machine id fits its width packs without loss while its interval count is below 2^timeBit, and at any count when the widths sum below 64. |
| GeneratorRun.FloorBelow | generator.go:180-184 | The value a machine packs to with both counters 0 decodes to its machine id and lies at or below the value of every state that packs without loss. |
| GeneratorRun.LimitPacksToFloor | generator.go:180-184 | With widths summing to exactly 64, an interval count of 2^timeBit is shifted out of the top, so such a state with sequence number 0 packs to the machine's counters-zero value. |
| GeneratorRun.GetNextIDStepsForward | generator.go:140-184 | `GetNextID` has the one-call guarantee the run theorems rest on: no issue at the interval limit; an issuing call keeps validity and layout, moves the counters forward, reaches the limit only with sequence number 0, and issues the packed new state. |
| GeneratorRun.IssuedValue | generator.go:140-184 | After one issuing call the state is still packable. Its value lies above the old one, except when the widths fill 64 bits and the limit is reached; then it is the machine's counters-zero value. Either way it decodes to the machine id. |
| GeneratorRun.RunIdsRise | generator.go:140-184 | The identifiers of a run rise above the starting state's value. With widths of exactly 64 bits, the last one may instead be the machine's counters-zero value, issued by the call reaching the interval limit, after which nothing more is issued. |
| GeneratorRun.RunIdsIncrease | generator.go:140-184 | Within a run from a state whose widths sum below 64, identifiers strictly increase. |
| GeneratorRun.RunIdsUnique | generator.go:140-184 | A run of any step with the one-call guarantee, from a packable state, never issues the same value twice. |
| GeneratorRun.RunIdsDistinct | generator_test.go:97-120 | A valid generator whose widths sum to at most 64 and whose machine id fits its width never issues the same value twice within a run that stops at its first error, whatever its clock reads. |
| GeneratorRun.DefaultGeneratorIdsDistinct | generator_test.go:97-120 | The generator built with no configuration (38/16/10, exactly 64 bits) is constructed and never issues the same value twice within a run that stops at its first error, on every clock. |
| GeneratorRun.RunIdsCarryMachine | generator.go:180-184 | Every identifier of a run decodes to its generator's machine id. |
| GeneratorRun.DistinctMachinesDisjoint | generator.go:180-184 | Two packable generators with the same widths and different machine ids never issue a common value. |
| GeneratorRun.ExpiredForever | generator.go:147-159 | Once expired, no later call issues an identifier, however the calls are timed, while the count stays clear of 2^64. |
| GeneratorRun.CallsRise | generator.go:140-184 | Over successive calls that go on after failed ones, the identifiers issued rise above the starting value; at exactly 64 bits the last may instead be the machine's counters-zero value. A clock regression leaves the generator as it was, and after an expiry nothing more is issued. |
| GeneratorRun.CallsIdsDistinct | generator_test.go:97-128 | A packable generator called again and again, also after clock-regression and expiry errors and on any clock, never issues the same value twice, while the interval count stays clear of 2^64. |
| GeneratorRun.DefaultGeneratorCallsDistinct | generator_test.go:161-176 | The generator built with no configuration, shared by callers that each stop at their own first error while the others keep calling, with the mutex putting all calls in one sequence, never issues the same value twice in fewer than 2^63 − 2^38 calls. |
| IdQueue.BeforeIsKeyOrder | id_queue.go:8-15 | The comparator holds exactly when (timestamp, value) is lexicographically smaller. |
| IdQueue.BeforeIsStrictTotal | id_queue.go:8-15 | The comparator is irreflexive and transitive. For distinct entries exactly one direction holds, and for equal entries neither does. |
| IdQueue.Swap | id_queue.go:17-19 | Exchanges the two positions, changes no other position, and keeps length and contents. |
| IdQueue.Push | id_queue.go:22-25 | Appends: the length grows by one, the new entry is last, and earlier entries are unchanged. |
| IdQueue.Pop | id_queue.go:28-35 | On a non-empty slice, returns the last entry and leaves the prefix. |
| IdQueue.PushPopRoundTrip | id_queue.go:22-35 | `Pop` undoes `Push`, and on a non-empty slice `Push` undoes `Pop`. |
| IdQueue.ExtractMin | id_factory.go:86-87 | `heap.Pop` seen from outside: removes one entry that no remaining entry orders before, and the rest keeps the other entries. |
| IdFactory.NewIDFactory | id_factory.go:51-63 | Fails exactly when the worker id list is non-empty and its length differs from the worker count. Otherwise the queue starts empty and the configuration is stored. |
| IdFactory.WorkerConfig | id_factory.go:102-113 | A worker's configuration is the template with only the machine id changed: the listed id when the list reaches index i, else i. |
| IdFactory.AcceptedWorkerIDs | id_factory.go:102-106 | In an accepted configuration, worker i uses the listed id if there is a list and i otherwise. So worker ids are pairwise distinct when the list has no repeats. |
| IdFactory.HireWorkers | id_factory.go:99-125 | Succeeds exactly when every worker's construction does. It then returns one worker per unit, in order, each with the full quota. A failure carries the error of the first failing construction. |
| IdFactory.HiredPackable | id_factory.go:107-117 | When the template's widths, with zeros replaced by the defaults 38/16/10, sum to at most 64 and the worker's id fits the repaired machine width, the hired generator is packable with the repaired widths and that id. |
| IdFactory.DoWork | id_factory.go:127-139 | At most `workNum` calls, stopping at the first error. Each issued identifier is pushed exactly once, in issue order, and the final state and error are those of the run. |
| IdFactory.RunWorkers | id_factory.go:73-76 | Running the workers one after another appends exactly the identifiers of their runs, in worker order, and changes nothing else. |
| IdFactory.Produce | id_factory.go:66-77 | A hiring failure leaves the factory unchanged. Otherwise exactly the hired workers' run output is added to the queue. |
| IdFactory.TotalWork | id_factory.go:82 | The consumer's target is workers × quota, wrapped to uint64. When the quota is non-negative and the product fits, it is the exact product. |
| IdFactory.Consume | id_factory.go:80-97 | Delivers a sub-multiset of the queue in comparator order, and what is delivered plus what remains is the queue. No entry left in the queue orders before any delivered entry. Finishes exactly when the target is 0 with an empty queue, or the target is between 1 and the queue length; then it delivers exactly the target. Otherwise it empties the queue. |
| IdFactory.ProducedMachines | id_factory.go:73-76 | Every produced identifier decodes to the machine id of one of the workers. |
| IdFactory.ProducedDistinct | id_factory.go:73-76 | Packable workers with one layout and pairwise different machine ids never produce the same value twice, neither within a worker nor across workers. |
| IdFactory.HiredIdsDistinct | id_factory.go:10-17 | With template widths summing to at most 64 once zeros are replaced by the defaults, and worker ids that differ and fit the repaired machine width, all identifiers the hired workers produce are unique. |
| IdFactory.ProducedCount | id_factory.go:129-138 | Workers with quota n produce at most k·n identifiers, and exactly k·n when no run stops on an error. |
| IdFactory.ConsumerFinishesIffNoWorkerFails | id_factory.go:80-97 | With an initially empty queue and a target that fits 64 bits, the consumer's stopping condition holds exactly when no worker's run stops on an error. |
| MachineIdOverflow.OverflowBranchRepeatsIds | generator.go:104-106 | As written, layout 38/6/1 with machine id 64 gets machine width 0. Calls starting at times 0, 0 and 10 then issue 5, 6 and 5; the second call sleeps 10 ns. |
| MachineIdOverflow.NewIDGeneratorFixed | generator.go:104-106 | Corrected construction. It fails exactly when the original does, with the same error. A constructed generator is valid, and for a non-zero requested machine width its machine id fits the width used. |
| MachineIdOverflow.FixedAgreesOutsideOverflow | generator.go:100-110 | Outside the overflow branch, the corrected construction equals the original. |
| MachineIdOverflow.FixedOverflowIdsDistinct | generator.go:104-106 | With the correction, an overflowing configuration that passes the raw width check and whose repaired time and sequence widths (zeros becoming 38 and 10) leave room for 16 machine bits gets the address-derived id at width 16. Its identifiers are pairwise distinct on every clock. |

## Left out

- Network I/O: `GetOutboundIP` (generator.go:187-197) is an input, and its byte arithmetic is not modelled.
- Clock reads and the sleep are inputs and outputs. `time.Duration` is an int64 count of nanoseconds.
- Concurrency is not modelled: the mutexes, the `HasWork` wait group, the goroutines of `Produce` and the consumer's busy loop. The factory runs on one schedule: every worker completes its quota in turn, then the consumer drains the queue, and each generator call and queue operation is atomic.
- `container/heap` is modelled by its effect only. `heap.Push` is an append, as in `DoWork`. `heap.Pop` removes an entry no other entry orders before (`ExtractMin`). The heap's internal layout and its use of `Swap`/`Less` are not modelled.
- `IdFactory.Consume`: when the queue runs dry before the target, the source spins forever; the model stops and reports `finished == false`.
- Printing and logging (`fmt.Printf`), and example.go, are not modelled.
- A factory whose `IDConfig` pointer is nil dereferences nil in `hireWorkers`. The model's configuration always holds a template.
- `GeneratorRun.RunIdsIncrease` assumes widths summing below 64. At exactly 64 bits, as in the default 38/16/10 layout, the call that reaches an interval count of 2^timeBit issues a value whose count is shifted out of the top; it is the smallest value of its machine and comes last (`GeneratorRun.RunIdsRise`), so order breaks there while distinctness still holds.
- `GeneratorRun.RunIdsDistinct`, `GeneratorRun.CallsIdsDistinct`, `IdFactory.ProducedDistinct` and `IdFactory.HiredIdsDistinct` assume widths summing to at most 64 (after repair) and a machine id that fits its width. Repaired widths may exceed 64 (`IdGenerator.RepairedWidthsCanExceed64`), and then packing loses bits.
- `IdGenerator.StepClockRegression` assumes the difference of the two clock readings is itself an int64. Beyond that, Go's subtraction wraps and the regression check looks at the wrapped value, which `Sub64` models but the lemma does not characterise.
- `IdGenerator.ExpiryIsPermanent` and `GeneratorRun.ExpiredForever` assume the interval count stays below 2^64 − 1, where `uint64` increment would wrap to 0.
- `GeneratorRun.CallsIdsDistinct` and `GeneratorRun.DefaultGeneratorCallsDistinct` bound the number of calls so that 2^timeBit plus that number stays below 2^64 − 1: every expired call bumps the count again, and after about 2^64 of them it would wrap to 0 and the generator would issue again.
- `IdLayout.Pack` is `newID` (generator.go:180-184) written out with Go's shift and OR, and `IdGenerator.NewID` applies it to a state. Their properties are stated by `IdLayout.PackIsPositional`, `IdLayout.UnpackPack`, `IdLayout.PackInjective` and `IdLayout.PackMonotone`.
- `Len` and `Less` (id_queue.go:6-15) are defined directly as the slice length and the comparator; their properties are stated through `Before`.

## Findings

| source | as written | input that shows it | evidently intended | confidence | as-written member | corrected member |
|---|---|---|---|---|---|---|
| generator.go:104-106 | An overflowing machine id is replaced by the address-derived id, but `machineBit` is never set and stays 0, so the id is OR-ed into the interval count's low bits | Layout 38/6/1, machine id 64, rate 10 ns, address-derived id 2, built at 0. Calls starting at 0, 0 and 10 issue 5, 6 and 5. | Also set the default machine width (16), which the address-derived id was made for, as the zero-width branch does | not executed; the model proves the repeated value | MachineIdOverflow.OverflowBranchRepeatsIds | MachineIdOverflow.NewIDGeneratorFixed |

The factory hires through the construction as written. Its theorems assume worker ids that fit the machine width, and there the two constructions agree (`MachineIdOverflow.FixedAgreesOutsideOverflow`).
