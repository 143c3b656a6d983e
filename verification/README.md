# Verified models of the stress tester's algorithms

This directory models the self-contained algorithms of the hardware stress tester and proves what they promise. Each
module stands for one component:

* `Prime`, `LucasLehmerTheorem`, `LucasLehmerCertificates`, `MillerRabinTheorem`, `PrimeCertificates`, `RootThree`, `NumberTheory`: the primality kernels of the CPU engine on 64- and 128-bit words and their two self-tests, over a proof of the Lucas-Lehmer theorem (both directions) and of the Miller-Rabin condition
* `RamEngine`, `Patterns`, `MarchTheory`, `PatternTheory`, `RoundTheory`, `QuietTheory`, `CellTheory`, `FaultyMemory`, `Prng`: the RAM test engine on a memory that may carry one fault, the March C- coverage theorem, exactly what every other pattern reports, the absence of false alarms, and the xoshiro256** generator
* `ArtifactDetector`, `FloodFill`, `Components`: the frame comparison of the GPU engine and its capped flood fill
* `PointerChase`, `Cycles`, `Counting`: the pointer-chase builder shared by the cache and memory benchmarks, and the one-to-one correspondence of draws and single cycles
* `Crc32c`, `CrcDistance`, `CrcValues`: the checksum: table form, 8-byte form, incremental use, check value and residue, detection of bursts, of odd numbers of wrong bits and, through the order of the register step, of two wrong bits (CRC32C of section 12.1 of RFC 3720)
* `Dgemm`: the cache-blocked matrix product
* `StorageTickets`, `StorageStops`: the random I/O workers as an interleaving state machine, and what the stop flag does to them
* `PsuAnalysis`: the streaming power/error correlation
* `LineReader`, `LhmBridge`: the sensor helper's line buffer and restart backoff
* `SensorTree`, `Grouping`: the sensor tree and its flattening
* `CsvExport`: the CSV files and a reader for section 2 of RFC 4180
* `Arithmetic`, `Sequences`, `Wrappers`: small facts and types the other modules share

`dafny verify dfyconfig.toml` checks everything. Code that works by changing things in place is modelled by methods and
classes with the same loops and fields; each is proved against a specification, and the lemmas are about that
specification. Time, randomness, the operating system and I/O results enter as parameters.

## Where the code and its descriptions differ

* The comment in `lucas_lehmer` says the 128-bit arithmetic is right up to about p = 60
  (`src/engines/cpu/prime.cpp:103-105`). It is exact up to p = 64 (`Prime.LucasLehmerTest`); the branch for p > 60 runs
  the same step with a 128-bit state.
* The unsigned `ss -= 2` would wrap for a residue of 0 or 1. For 3 <= p <= 64 that never happens before the last step
  (`LucasLehmerCertificates.NoEarlyWrap`).
* The cap of 10000 pixels is tested after counting, so a region of 10001 pixels is still complete
  (`ArtifactDetection.BelowCaps`). After the hundredth region the classification returns before it chooses a primary
  type. With an error rate up to one half, at least 100 components therefore get none, even though with exactly 100 of
  them the boxes are complete; and none is missing unless there are at least 100 components or one above 10001 pixels
  (`ArtifactDetection.TypeGiven`, promised by `ArtifactDetection.ArtifactDetector.CompareFrame`). `ArtifactDetection.HundredRegionsHaveNoType` compares
  such a frame: a row of 200 pixels, every other one white, against black.
* The comment in `checkerboard` says it detects coupling faults between neighbours
  (`src/engines/ram_engine.cpp:449-450`). It misses every coupling by a write to a lower address
  (`RoundTheory.CheckerboardReportsExactly`; `RoundTheory.CheckerboardMissesNeighbour` gives a fault), and so does
  every pattern but March C-, in any number of rounds (`RoundTheory.LowAggressorIsMissed`).
* `create_pointer_chase_array` says it builds a random Hamiltonian cycle (`src/engines/benchmark/cache_benchmark.cpp:107-108`).
  It draws a single cycle and then uses it as the order of the slots, so different draws can build the same chain: with
  three slots every outcome builds the sequential one (`PointerChase.ThreeSlotsAreSequential`).
* The random I/O tests compute their final rate from the shared counter (`src/engines/storage_engine.cpp:782-787`). In
  every state of every run it exceeds the operations performed by the workers that overshot plus the tickets that
  workers hold or gave up when the time was over (`StorageTickets.CounterLaw`). At the end it is right if and only if
  every worker had no buffer or saw the stop flag at the head of its loop (`StorageTickets.FinalCounter`;
  `StorageTickets.OvershotOnce` and `StorageTickets.TimedOutAtOnce` are finished runs where it is not).
* After a restart in the backoff phase that succeeds without delivering a reading at once, the next poll restarts the
  helper again, although it runs (`LhmBridge.RestartsAgainExactly`; `LhmBridge.RestartedTwice` gives a run).
* The backoff never applies to a bridge whose helper is missing or whose first start fails: every later poll returns at
  once and nothing is tried again (`LhmBridge.FirstStartDecides`, `src/monitor/lhm_bridge.cpp:278-301`, `329`).
* A drain whose last complete line is empty delivers nothing, even if earlier lines of the same drain held data
  (`LhmBridge.EmptyLineHidesReading`, `src/monitor/lhm_bridge.cpp:203-211`). The helper writes one JSON object per line
  (`tools/lhm-sensor-reader/Program.cs:259-260`) and sends no such line by itself.
* `src/monitor/sensor_model.h:19` calls node ids unique. They are exactly when no two categories fold to the same lower
  case text (`SensorTree.IdsDistinctExactly`; `SensorTree.IdsCanCollide` gives a list where they are not).
* The CSV writer does not quote a field for a carriage return alone. The file is readable under section 2 of RFC 4180
  exactly when no such field occurs (`CsvExport.TableRoundTrip`; `CsvExport.CarriageReturnSpoilsFile` gives one).

## Model

| member | source | states |
|---|---|---|
| NumberTheory.SquareRootsOfOne | src/engines/cpu/prime.cpp:78-90 | modulo a prime only 1 and -1 square to 1, the fact behind the inner Miller-Rabin loop |
| RootThree.Frobenius | src/engines/cpu/prime.cpp:122-131 | (1 + x)^q is congruent to 1 + x^q in Z[sqrt 3] modulo a prime q |
| RootThree.Fermat | src/engines/cpu/prime.cpp:49-97 | a^(q-1) is 1 modulo a prime q that does not divide a |
| LucasLehmerTheorem.ClosedForm | src/engines/cpu/prime.cpp:122-131 | the k-th term of 4, s*s - 2, ... is omega^(2^k) plus its conjugate, omega = 2 + sqrt 3 |
| LucasLehmerTheorem.FactorsAreLarge | src/engines/cpu/prime.cpp:122-131 | a factor q >= 3 of S(n) has q*q >= 2^(n+2): the element-order argument, by pigeonhole |
| LucasLehmerTheorem.ThreeIsNonResidue | src/engines/cpu/prime.cpp:122-131 | 3^((q-1)/2) is -1 modulo a prime q = 6m + 1 with m odd |
| LucasLehmerTheorem.TwoIsResidue | src/engines/cpu/prime.cpp:122-131 | 2^((q+1)/2) is 2 modulo a Mersenne prime q with odd exponent |
| LucasLehmerTheorem.LucasLehmer | src/engines/cpu/prime.cpp:99-131 | for every p >= 3: 2^p - 1 is prime if and only if it divides S(p-2) |
| LucasLehmerCertificates.NoEarlyWrap | src/engines/cpu/prime.cpp:125-130 | for 3 <= p <= 64 no residue before the last step is 0 or 1 modulo 2^p - 1, so the unsigned subtraction never wraps |
| MillerRabinTheorem.Descend | src/engines/cpu/prime.cpp:71-93 | walking back through the squarings of a value that ends in 1 modulo a prime, the first other value is -1 |
| MillerRabinTheorem.PrimesPass | src/engines/cpu/prime.cpp:49-97 | every prime is a strong probable prime to every base it does not divide |
| MillerRabinTheorem.StrongExactly | src/engines/cpu/prime.cpp:74-94 | without the decomposition of n - 1: the condition holds for a if and only if a^(n-1) is 1 modulo n and no power of a that halving n - 1 leads to is a square root of 1 other than 1 and -1 |
| Prime.MulMod | src/engines/cpu/prime.cpp:22-37 | the 128-bit product reduced is the exact product modulo m, without overflow |
| Prime.ModPow | src/engines/cpu/prime.cpp:15-47 | the square-and-multiply loop returns base^exp mod mod for every 64-bit input (and 1 for exponent 0, also for modulus 1) |
| Prime.WitnessRejects | src/engines/cpu/prime.cpp:72-94 | one witness rejects n if and only if n is not a strong probable prime to that base |
| Prime.PrimesAreAccepted | src/engines/cpu/prime.cpp:49-97 | a prime meets the acceptance condition for every number of rounds |
| Prime.AcceptedExactly | src/engines/cpu/prime.cpp:49-97 | beyond 3 exactly the odd n that meet Fermat's congruence and have only trivial roots for each of the first `rounds` of the twelve witnesses below n are accepted |
| Prime.WitnessesAreThePrimes | src/engines/cpu/prime.cpp:62-66 | the witnesses are the primes below 41 |
| Prime.MillerRabin | src/engines/cpu/prime.cpp:49-97 | for every n and every number of rounds the answer is exactly the acceptance condition, also stated as Fermat's congruence and trivial roots only; no prime is rejected |
| Prime.ExactStep | src/engines/cpu/prime.cpp:125-130 | for p <= 64 the machine step never wraps and is the exact residue of s*s - 2 |
| Prime.LucasLehmerTest | src/engines/cpu/prime.cpp:99-131 | false below 2, and for 2 <= p <= 64 true if and only if 2^p - 1 is prime |
| Prime.KnownAreMersenne | src/engines/cpu/prime.cpp:242-247 | every exponent of the first table gives a Mersenne prime |
| Prime.KnownAreNotMersenne | src/engines/cpu/prime.cpp:248-253 | no exponent of the second table does |
| Prime.VerifyLucasLehmer | src/engines/cpu/prime.cpp:294-333 | the self-test passes all 17 entries, so it fails only on faulty hardware |
| PrimeCertificates.OrderDivides | src/engines/cpu/prime.cpp:200-216 | an element of prime order q modulo a prime p makes q divide p - 1, the fact behind the certificates of the table |
| PrimeCertificates.NoRoom | src/engines/cpu/prime.cpp:200-216 | when every prime factor of n is 1 modulo d and (d + 1)^2 exceeds n, n is prime |
| Prime.KnownArePrime | src/engines/cpu/prime.cpp:200-216 | all 32 entries of the prime table are prime |
| Prime.DivisorUnmasks | src/engines/cpu/prime.cpp:76-93 | a witness that divides an odd n is never passed by n |
| Prime.KnownAreRejected | src/engines/cpu/prime.cpp:219-239 | no entry of the composite table, Carmichael numbers included, meets the acceptance condition |
| Prime.VerifyMillerRabin | src/engines/cpu/prime.cpp:255-292 | the self-test passes all 56 entries |
| Prng.MixInjective | src/engines/ram_engine.cpp:75-78 | the SplitMix64 finaliser is injective on 64-bit words |
| Prng.SeededWordsDiffer | src/engines/ram_engine.cpp:71-80 | the four seeded words are pairwise different for every seed |
| Prng.PrevNext | src/engines/ram_engine.cpp:82-92 | the state update of xoshiro256** can be undone |
| Prng.DrawsInjective | src/engines/ram_engine.cpp:82-92 | two different states never merge, however many draws are made |
| Prng.NeverDies | src/engines/ram_engine.cpp:68-93 | from any seed no number of draws reaches the all-zero state |
| Prng.OutputIsBijective | src/engines/ram_engine.cpp:82-84 | every 64-bit value is the output for exactly one second word |
| Prng.ReferenceOutputs | src/engines/ram_engine.cpp:82-92 | the first four outputs from the state 1, 2, 3, 4 are those of the published xoshiro256** |
| Prng.ReferenceSeed | src/engines/ram_engine.cpp:71-80 | the state made of seed 0 is that of the published SplitMix64 |
| Prng.Xoshiro256.Seed | src/engines/storage_engine.cpp:55-63 | the seeding loop produces the seeded state of the specification |
| Prng.Xoshiro256.Draw | src/engines/storage_engine.cpp:65-71 | one draw outputs the scrambled word and steps the state, as specified |
| FaultyMemory.ReportsGrow | src/engines/ram_engine.cpp:595-616 | whatever the fault, reports are only appended |
| FaultyMemory.ReportsOffset | src/engines/ram_engine.cpp:315-367 | what a schedule reads and reports does not depend on earlier reports |
| CellTheory.PassEffect | src/engines/ram_engine.cpp:323-366 | one pass moves the aggressor and victim bits as two visits in the order of the addresses |
| CellTheory.RunShows | src/engines/ram_engine.cpp:323-366 | for any schedule the faulty memory holds what the two cells hold, and has a report if they saw a mismatch |
| MarchTheory.MarchSchedule | src/engines/ram_engine.cpp:313-367 | every operation of the six loops on n words: its word, what it compares with and what it writes |
| MarchTheory.MarchEffect | src/engines/ram_engine.cpp:313-367 | the first k passes of the test do to the cells what the first k March elements do |
| MarchTheory.MarchExposes | src/engines/ram_engine.cpp:313-367 | on two cells the six elements expose every fault of the class, in either address order, whatever the cells held |
| MarchTheory.MarchDetects | src/engines/ram_engine.cpp:313-367 | for every memory size and contents, March C- reports every single stuck-at, transition, inversion-, idempotent- and state-coupling fault |
| QuietTheory.QuietPass | src/engines/ram_engine.cpp:323-366 | on fault-free memory every prefix of a pass that expects what is stored reports nothing and leaves the mixed contents |
| QuietTheory.NoFalseAlarm | src/engines/ram_engine.cpp:315-591 | fault-free memory passes every prefix of every consistent test without a report |
| Patterns.PatternConsistent | src/engines/ram_engine.cpp:315-591 | each of the six patterns, for every size and seed, compares only with what it wrote last |
| Patterns.RunConsistent | src/engines/ram_engine.cpp:260-284 | so does a run of any number of rounds |
| Patterns.MarchRunDetects | src/engines/ram_engine.cpp:260-269 | a March run of at least one round reports every fault of the class |
| PatternTheory.ReportsExactly | src/engines/ram_engine.cpp:315-591 | a consistent test on a memory with any fault of the class reports something if and only if the cells of the fault see a mismatch |
| PatternTheory.StuckReportedExactly | src/engines/ram_engine.cpp:315-591 | a stuck cell is reported by a consistent test if and only if the test expects the other value there |
| PatternTheory.StuckCellReported | src/engines/ram_engine.cpp:378-591 | a round of March C-, walking ones, walking zeros or the checkerboard reports every stuck cell; one of the random or bandwidth pattern exactly when its word has the other value |
| PatternTheory.StuckRunDetects | src/engines/ram_engine.cpp:260-284 | so does a run of at least one round |
| RoundTheory.RoundStep | src/engines/ram_engine.cpp:378-591 | one round of writing and verifying goes wrong exactly when it exposes the fault, and otherwise leaves the cells as written |
| RoundTheory.RoundsReportExactly | src/engines/ram_engine.cpp:378-591 | any contents written and verified one after another report a fault if and only if one of them exposes it against its predecessor |
| RoundTheory.RunReportsExactly | src/engines/ram_engine.cpp:260-284 | a run of any number of rounds of a pattern other than March C- reports a fault if and only if one of its contents exposes it |
| RoundTheory.WalkingReportsExactly | src/engines/ram_engine.cpp:378-439 | a round of walking ones or zeros reports a fault if and only if kind, addresses, initial bits and the positions of the bits in their words meet a condition |
| RoundTheory.WalkingOnesMissesTopBit | src/engines/ram_engine.cpp:378-407 | walking ones misses a cell that cannot fall, in the top bit of a zeroed word |
| RoundTheory.CheckerboardReportsExactly | src/engines/ram_engine.cpp:442-481 | the checkerboard reports a fault if and only if the kind, the addresses and the initial bits meet a condition; couplings by a write need the aggressor above the victim |
| RoundTheory.CheckerboardMissesNeighbour | src/engines/ram_engine.cpp:449-450 | an idempotent coupling of neighbouring words that the checkerboard misses |
| RoundTheory.LowAggressorIsMissed | src/engines/ram_engine.cpp:378-591 | no run of a pattern but March C- reports an inversion or idempotent coupling whose aggressor is below the victim |
| RoundTheory.RepeatedRunReports | src/engines/ram_engine.cpp:260-284 | from the second round on, walking patterns and the checkerboard report every transition fault, and an inversion coupling if and only if the aggressor is above the victim |
| RoundTheory.NeighboursAreOpposite | src/engines/ram_engine.cpp:449-452 | neighbouring bits of a word and the same bits of neighbouring words have opposite values |
| RoundTheory.RandomContentsDiffer | src/engines/ram_engine.cpp:491-520 | the first word of the random pattern determines the seed |
| RoundTheory.RandomFirstWords | src/engines/ram_engine.cpp:491-520 | the two words with which seed 0 starts |
| RamTest.RamEngine.PollStop | src/engines/ram_engine.cpp:260 | the stop flag, once seen, stays set |
| RamTest.RamEngine.ReportError | src/engines/ram_engine.cpp:595-628 | counts the error, logs it while fewer than 1000 are logged, requests a stop if configured |
| RamTest.LogEntryMeans | src/engines/ram_engine.cpp:599-616 | a log entry names the byte offset, both words and exactly the bits in which they differ |
| RamTest.RamEngine.CompareWord | src/engines/ram_engine.cpp:331-339 | reports exactly when the observed word differs from the expected one |
| RamTest.RamEngine.RunPass | src/engines/ram_engine.cpp:323-366 | a loop performs a prefix of its pass, and the whole pass unless stopped |
| RamTest.RamEngine.WalkingBits | src/engines/ram_engine.cpp:378-439 | both walking patterns perform a prefix of 64 write and verify passes, all of them unless stopped |
| RamTest.RamEngine.RandomSweep | src/engines/ram_engine.cpp:491-520 | a loop of the random pattern writes or expects exactly the generator's sequence for the seed |
| RamTest.RamEngine.RandomPattern | src/engines/ram_engine.cpp:491-520 | the re-seeded verify loop compares with the words the write loop stored |
| RamTest.RamEngine.RunPattern | src/engines/ram_engine.cpp:265-284 | each pattern performs a prefix of its schedule, all of it unless stopped |
| RamTest.RamEngine.Run | src/engines/ram_engine.cpp:260-293 | no false alarm on sound memory for every pattern, seed list and moment of stopping; undisturbed, a March run finds every fault, walking and checkerboard runs every stuck cell, and a run of any pattern but March C- reports a fault exactly when one of its contents exposes it |
| Components.AdjacentExactly | src/engines/gpu/artifact_detector.cpp:155-170 | neighbours are the pixels at distance 1, diagonals excluded |
| Components.ClosedIsComponent | src/engines/gpu/artifact_detector.cpp:155-170 | a closed set of mutually connected error pixels is a connected component |
| Components.ComponentsEqualOrDisjoint | src/engines/gpu/artifact_detector.cpp:119-195 | components are equal or disjoint |
| FloodFill.PushNeighbours | src/engines/gpu/artifact_detector.cpp:155-170 | marks and pushes exactly the unmarked error pixels among the four neighbours |
| FloodFill.FillingStep | src/engines/gpu/artifact_detector.cpp:136-174 | one turn of the stack loop keeps the search invariant |
| FloodFill.FloodRegion | src/engines/gpu/artifact_detector.cpp:127-189 | terminates; the location is the tight bounding box, largest error and kind of the visited region; a region has at most 10001 pixels and is cut short only there |
| ArtifactDetection.UncutIsComponent | src/engines/gpu/artifact_detector.cpp:127-174 | a search that was not cut short found a whole component |
| ArtifactDetection.ScanIsComplete | src/engines/gpu/artifact_detector.cpp:119-195 | below the caps the regions are the connected components, each exactly once |
| ArtifactDetection.CompleteIsBelowCaps | src/engines/gpu/artifact_detector.cpp:172-194 | only below the caps can the regions be all the components |
| ArtifactDetection.PiecesGrow | src/engines/gpu/artifact_detector.cpp:127-174 | also above the caps the regions are pieces of components that do not overlap |
| ArtifactDetection.RepresentedGrows | src/engines/gpu/artifact_detector.cpp:127-174 | every component that has been touched has a region of its own |
| ArtifactDetection.AtLeastOneEach | src/engines/gpu/artifact_detector.cpp:119-195 | a finished scan has at least as many regions as there are components |
| ArtifactDetection.ScanCounts | src/engines/gpu/artifact_detector.cpp:119-195 | the number of regions is at least the smaller of 100 and the number of components, and exactly that unless a component has more than 10001 pixels |
| ArtifactDetection.TypeGivenByCount | src/engines/gpu/artifact_detector.cpp:193-209 | at least 100 components get no primary type, and it is missing only for them or with a component above 10001 pixels |
| ArtifactDetection.CombFrameErrors | src/engines/gpu/artifact_detector.cpp:33-54 | the error pixels of a white comb against black are its hundred teeth |
| ArtifactDetection.HundredRegionsHaveNoType | src/engines/gpu/artifact_detector.cpp:21-89 | the comparison of that frame returns a hundred locations and no primary type |
| ArtifactDetection.ErrorPixelsExactly | src/engines/gpu/artifact_detector.cpp:34-48 | over the stored bytes: a pixel is erroneous if and only if one of its four bytes is more than the tolerance above or below the reference |
| ArtifactDetection.MaxErrorExactly | src/engines/gpu/artifact_detector.cpp:142-152 | the largest error of a location exceeds t if and only if some pixel of its region is more than t off |
| ArtifactDetection.ExchangeKeepsErrors | src/engines/gpu/artifact_detector.cpp:34-48 | exchanging frame and reference keeps the error pixels and every largest error |
| ArtifactDetection.BuildErrorMap | src/engines/gpu/artifact_detector.cpp:33-54 | marks and counts exactly the pixels with a channel outside the tolerance |
| ArtifactDetection.RegionScan.ScanPixel | src/engines/gpu/artifact_detector.cpp:124-195 | one turn of the scan keeps the scan invariant and covers the pixel |
| ArtifactDetection.RegionScan.Scan | src/engines/gpu/artifact_detector.cpp:119-196 | the double loop finds pieces of components without overlap, and all components if and only if they are below the caps; their number is tied to the number of components |
| ArtifactDetection.PrimaryType | src/engines/gpu/artifact_detector.cpp:198-209 | blocks only if they outnumber the small clusters |
| ArtifactDetection.SeverityByCount | src/engines/gpu/artifact_detector.cpp:69-77 | the severity in terms of the two counts |
| ArtifactDetection.LocatedMeans | src/engines/gpu/artifact_detector.cpp:172-194 | at most 100 locations of at most 10001 pixels inside their boxes; a block from 64 pixels on |
| ArtifactDetection.ArtifactDetector.Classify | src/engines/gpu/artifact_detector.cpp:102-210 | full-frame above one half; otherwise at most 100 tight boxes of disjoint pieces of components, one per component if and only if the components are below the caps, and the majority type, which is missing for 100 components or more and otherwise only with a component above 10001 pixels |
| ArtifactDetection.ArtifactDetector.CompareFrame | src/engines/gpu/artifact_detector.cpp:21-89 | counts, rate, severity, type, locations and totals for every frame, including the mismatch case; the error pixels are given over the stored bytes; when the type is missing is stated over the error pixels |
| ArtifactDetection.ArtifactDetector.SetReferenceFrame | src/engines/gpu/artifact_detector.cpp:13-19 | stores the reference |
| ArtifactDetection.ArtifactDetector.ResetStatistics | src/engines/gpu/artifact_detector.cpp:97-100 | clears the totals |
| Cycles.WalkVisitsAll | src/engines/benchmark/cache_benchmark.cpp:153-164 | on a single cycle the walk from any start is at each slot exactly once in count steps and returns |
| Cycles.DrawsAreMet | src/engines/benchmark/cache_benchmark.cpp:117-121 | in the outcome each position has drawn the first lower position that the walk from it meets |
| Cycles.DifferentDrawsDiffer | src/engines/benchmark/cache_benchmark.cpp:117-121 | draws that differ anywhere leave different outcomes |
| Cycles.DrawnIsCycle | src/engines/benchmark/cache_benchmark.cpp:117-121 | every outcome is a single cycle |
| Cycles.EveryCycleIsDrawn | src/engines/benchmark/cache_benchmark.cpp:117-121 | every single cycle is the outcome of some draws, so draws and single cycles correspond one to one |
| Cycles.DrawnExactly | src/engines/benchmark/cache_benchmark.cpp:117-121 | a single cycle is the outcome of given draws if and only if each position drew the first lower one on its way |
| PointerChase.JoinRings | src/engines/benchmark/cache_benchmark.cpp:117-121 | swapping two entries of different cycles joins the cycles |
| PointerChase.SwapJoins | src/engines/benchmark/cache_benchmark.cpp:117-121 | a Sattolo step keeps exactly one cycle for each position not yet final |
| PointerChase.Shuffle | src/engines/benchmark/cache_benchmark.cpp:110-121 | for every outcome of the draws the shuffled indices are a permutation that is one cycle, the one in which each position drew the first lower one on its way |
| PointerChase.CreatePointerChase | src/engines/benchmark/cache_benchmark.cpp:106-129 | the chase array is one Hamiltonian cycle, visiting the slots in the order of the shuffled indices |
| PointerChase.Traverse | src/engines/benchmark/cache_benchmark.cpp:159-164 | a traversal stays in range, is the specified walk, and after count steps is back at 0 |
| PointerChase.BuildAndWarmUp | src/engines/benchmark/memory_benchmark.cpp:229-246 | the second copy: builder and warm-up loop end at 0 on the single cycle that the draws give |
| PointerChase.ThreeSlotsAreSequential | src/engines/benchmark/cache_benchmark.cpp:106-129 | with three slots every outcome of the draws builds the sequential chain |
| PointerChase.FourSlots | src/engines/benchmark/cache_benchmark.cpp:106-129 | draws that lead to the order 0, 1, 3, 2 |
| Crc32c.BitStepInjective | src/utils/crc32.cpp:27-32 | the register step is a bijection |
| Crc32c.RepeatIsSerial | src/utils/crc32.cpp:25-34 | n steps with a word mixed in take in its n low bits serially |
| Crc32c.TableStep | src/utils/crc32.cpp:42-44 | one table look-up takes in the eight bits of a byte |
| Crc32c.SoftwareCrc.InitTable | src/utils/crc32.cpp:22-36 | fills all 256 entries |
| Crc32c.SoftwareCrc.Compute | src/utils/crc32.cpp:38-46 | the table form equals the bit-serial definition for every message and initial value |
| Crc32c.HardwareCrc | src/utils/crc32.cpp:52-73 | the 8-byte form equals it too, despite its all-ones upper half |
| Crc32c.Incremental | src/utils/crc32.cpp:93-95 | crc(a + b, c) = crc(b, crc(a, c)) |
| Crc32c.DetectsBitBursts | src/utils/crc32.cpp:22-46 | messages whose bits differ only within 32 consecutive ones always have different checksums |
| Crc32c.DetectsByteBursts | src/utils/crc32.cpp:22-46 | messages that differ only within four consecutive bytes always have different checksums |
| Crc32c.StepKeepsParity | src/utils/crc32.cpp:27-32 | a register step keeps the parity of the register |
| Crc32c.DetectsOddErrors | src/utils/crc32.cpp:22-46 | messages of equal length that differ in an odd number of bits always have different checksums |
| CrcDistance.SquareStep | src/utils/crc32.cpp:27-32 | squaring modulo the generator polynomial turns one register step into two |
| CrcDistance.SquareOfPower | src/utils/crc32.cpp:27-32 | the square of m steps from 1 is 2m steps from 1, for every m |
| CrcDistance.PeriodReturns | src/utils/crc32.cpp:27-32 | 2^31 - 1 steps take every register back |
| CrcDistance.ReturnsExactly | src/utils/crc32.cpp:27-32 | d steps take a register back if and only if 2^31 - 1 divides d or no step changes it |
| CrcDistance.TwoBitErrors | src/utils/crc32.cpp:22-46 | two messages that differ in exactly two bits have the same checksum if and only if 2^31 - 1 divides the distance of the bits |
| CrcDistance.DetectsThreeBits | src/utils/crc32.cpp:22-46 | messages of fewer than 2^31 bits that differ in one to three bits, wherever these are, always have different checksums |
| CrcValues.CheckValue | src/utils/crc32.cpp:38-46 | the checksum of the digits 1 to 9 is 0xE3069283 |
| CrcValues.Residue | src/utils/crc32.cpp:38-46 | for every message and initial value, a message followed by the bytes of its checksum has the checksum 0x48674BC7 |
| CrcValues.ZerosChecksum | src/utils/crc32.cpp:38-46 | the checksum of n zero bytes is 0 if and only if 2^31 - 1 divides n |
| Dgemm.InnerLoop | src/engines/cpu/linpack.cpp:56-58 | one row segment takes in the k-th term; nothing else changes |
| Dgemm.TileLoops | src/engines/cpu/linpack.cpp:53-60 | one tile takes in its terms in order; nothing else changes |
| Dgemm.ScaleByBeta | src/engines/cpu/linpack.cpp:36-43 | the three cases of beta |
| Dgemm.TiledDgemm | src/engines/cpu/linpack.cpp:31-64 | every element ends as the plain left fold over k from the beta-scaled start, for uninterpreted add and mul and every N |
| Dgemm.FoldIsProduct | src/engines/cpu/linpack.cpp:29-31 | over the reals that fold is start + alpha * (A B)[i,j] |
| Dgemm.ScaledForgets | src/engines/cpu/linpack.cpp:36-43 | for any arithmetic, with beta zero the old contents play no part, with beta one they stay |
| Dgemm.GemmOverReals | src/engines/cpu/linpack.cpp:29-64 | over the reals the result is alpha * A B + beta * C for every alpha and beta |
| Dgemm.TwoByTwo | src/engines/cpu/linpack.cpp:31-64 | a product of matrices stored by rows |
| StorageTickets.AlwaysInv | src/engines/storage_engine.cpp:679-744 | the protocol invariant holds in every interleaving |
| StorageTickets.CounterAndOffsetsBounded | src/engines/storage_engine.cpp:689-717 | the counter passes the target by at most one per worker; every I/O call lies inside the file |
| StorageTickets.TicketsPerformedOnce | src/engines/storage_engine.cpp:690-700 | no ticket is performed twice and none at or above the target |
| StorageTickets.NoTicketLost | src/engines/storage_engine.cpp:689-726 | each claimed ticket is performed or held by exactly one worker, also when stopped |
| StorageTickets.CounterLaw | src/engines/storage_engine.cpp:689-726 | in every reachable state the counter is the operations performed plus the tickets held or given up plus the overshooting workers; it equals the operations if and only if there are none of either |
| StorageTickets.FinalCounter | src/engines/storage_engine.cpp:782-787 | at the end of every run, timed or not, the counter is right if and only if every worker had no buffer or saw the stop flag at the head of its loop |
| StorageTickets.OvershotOnce | src/engines/storage_engine.cpp:689-726 | a finished run of one worker and one block with the counter at 2 and one operation |
| StorageTickets.TimedOutAtOnce | src/engines/storage_engine.cpp:693-697 | a finished timed run with the counter at 1 and no operation |
| StorageTickets.UnstoppedRunIsComplete | src/engines/storage_engine.cpp:934-1007 | a finished run without a stop performed exactly target operations, reads plus writes in the mixed test; the counter exceeds them by the overshooting workers |
| StorageTickets.NoDeadlock | src/engines/storage_engine.cpp:689-726 | unless all are done some worker can step |
| StorageTickets.RunsAreBounded | src/engines/storage_engine.cpp:689-726 | no interleaving has more worker steps than seven per ticket and three per worker |
| StorageTickets.MaximalRunIsComplete | src/engines/storage_engine.cpp:934-1007 | a run no worker can continue is finished, and without a stop it performed exactly target operations |
| StorageStops.StopExactly | src/engines/storage_engine.cpp:696-744 | in every run the flag is up if and only if a worker out of time, a worker with an error under stop-on-error, the monitor or the user has raised it |
| StorageStops.StopStays | src/engines/storage_engine.cpp:689 | once up the flag stays up |
| StorageStops.OneMoreEach | src/engines/storage_engine.cpp:689-726 | once the flag is up each worker draws at most one more ticket and performs at most one more operation, and only if it was past the test |
| StorageStops.StoppedAtLoop | src/engines/storage_engine.cpp:689 | a worker at the head of its loop when the flag goes up performs nothing any more |
| StorageStops.FewMoreOperations | src/engines/storage_engine.cpp:689-726 | once the flag is up the operations grow by at most the queue depth |
| StorageStops.FailureStops | src/engines/storage_engine.cpp:709-723 | a finished run under stop-on-error in which an operation failed has the flag up |
| StorageStops.StopHasCause | src/engines/storage_engine.cpp:689-744 | without a duration limit and without an error that stops, only the user raises the flag |
| StorageStops.LeavesExactly | src/engines/storage_engine.cpp:679-697 | a worker leaves without a buffer, on the flag, on a ticket past the target or on the time, in no other way |
| StorageStops.LeftForGood | src/engines/storage_engine.cpp:679-726 | a worker that leaves draws and performs nothing any more |
| StorageStops.BlockOfDraw | src/engines/storage_engine.cpp:699-700 | each block is selected by its own number, and draws that differ by the number of blocks select the same |
| StorageStops.TargetExactly | src/engines/storage_engine.cpp:668-669 | the number of blocks is as large as the file allows |
| StorageStops.FailedOnce | src/engines/storage_engine.cpp:709-723 | a finished run that its only error stops |
| StorageStops.StoppedBeforeStart | src/engines/storage_engine.cpp:689 | a worker that starts after the stop performs nothing |
| PsuAnalysis.DropExactly | src/engines/psu_engine.cpp:243-247 | a drop is less than nine tenths of the power before, both positive |
| PsuAnalysis.CorrelatedExactly | src/engines/psu_engine.cpp:258-264 | correlation in terms of the samples alone |
| PsuAnalysis.DropCountIsNumber | src/engines/psu_engine.cpp:248 | the count is the number of samples that are drops |
| PsuAnalysis.LargestDropExactly | src/engines/psu_engine.cpp:252-254 | the maximum in terms of the samples alone |
| PsuAnalysis.StabilityExactly | src/engines/psu_engine.cpp:274-282 | the figure is 100 less the range in percent of the average, and 0 from a range of the average on |
| PsuAnalysis.CorrelatedGrows | src/engines/psu_engine.cpp:258-264 | correlation of a longer history is the old one or a correlation at the new sample |
| PsuAnalysis.LastDropDecides | src/engines/psu_engine.cpp:258-264 | comparing with the latest drop decides whether any drop was within a second |
| PsuAnalysis.WindowGrows | src/engines/psu_engine.cpp:242-272 | flag and time of the window always stand for the latest drop of the history |
| PsuAnalysis.LargestDropGrows | src/engines/psu_engine.cpp:252-254 | the stored maximum is the largest drop of the history |
| PsuAnalysis.StabilityBounded | src/engines/psu_engine.cpp:274-282 | the stability figure lies in 0..100 for every history |
| PsuAnalysis.PsuEngine.constructor | src/engines/psu_engine.cpp:29-41 | the reset state stands for the empty history |
| PsuAnalysis.PsuEngine.DetectDrop | src/engines/psu_engine.cpp:242-256 | drop count, largest drop and window stand for the longer history |
| PsuAnalysis.PsuEngine.CheckWindow | src/engines/psu_engine.cpp:258-272 | the correlation flag is the whole-history definition; an expired window is closed |
| PsuAnalysis.PsuEngine.Analyse | src/engines/psu_engine.cpp:233-282 | one sample takes every stored figure to its definition over the longer history |
| PsuAnalysis.PsuEngine.Poll | src/engines/psu_engine.cpp:209-301 | after every sample all stored figures equal their whole-history definitions, the verdict is given in its order by engines, correlation and number of drops over the history, and a stop is requested exactly on an error with stop-on-error |
| LineReader.SplitIsExact | src/monitor/lhm_bridge.cpp:203-209 | lines with their newlines put back, and the rest, are the text; neither contains a newline |
| LineReader.SplitAppend | src/monitor/lhm_bridge.cpp:194-209 | splitting a text in two pieces, keeping only the rest of the first, gives the same lines and rest |
| LineReader.BufferIsRest | src/monitor/lhm_bridge.cpp:186-209 | after any series of drains the buffer is the text after the last newline of everything received |
| LineReader.DrainTakesNewLines | src/monitor/lhm_bridge.cpp:186-209 | a drain takes exactly the lines it completes, however the stream was cut before |
| LineReader.LineBuffer.ReadAvailable | src/monitor/lhm_bridge.cpp:186-201 | appends every chunk up to the first empty read and counts the bytes |
| LineReader.LineBuffer.TakeLastLine | src/monitor/lhm_bridge.cpp:203-209 | leaves the rest and returns the last complete line, or nothing |
| LhmBridge.RunMatchesHistory | src/monitor/lhm_bridge.cpp:305-382 | in every run of polls of a started bridge the stored interval is the computed one, the count is the failures since the last reading, the stamp is the last failure's time |
| LhmBridge.NoEarlyRestart | src/monitor/lhm_bridge.cpp:307-326 | with five or more failures a poll restarts the helper if and only if the interval since the last failure has passed |
| LhmBridge.WaitsExactly | src/monitor/lhm_bridge.cpp:305-311 | a poll waits if and only if less than 30, 60 or 120 seconds have passed since the fifth to ninth, tenth to nineteenth or a later failure |
| LhmBridge.BackoffSum | src/monitor/lhm_bridge.cpp:377-382 | the waits add up to five times 30, ten times 60 and then 120 seconds each |
| LhmBridge.PollBeforeBackoff | src/monitor/lhm_bridge.cpp:329-374 | below five failures a dead helper is started at once and a running one left alone; which outcomes count as failures |
| LhmBridge.PollAfterBackoff | src/monitor/lhm_bridge.cpp:307-374 | when the wait is over the helper is always started anew; which outcomes count as failures |
| LhmBridge.FailuresAreSpacedOut | src/monitor/lhm_bridge.cpp:305-382 | without a reading, failures after the fifth take at least the sum of the 30, 60 and 120 second intervals |
| LhmBridge.NeverGivesUp | src/monitor/lhm_bridge.cpp:305-382 | two minutes after the last failure a poll of a started bridge always reads or restarts |
| LhmBridge.RestartsAgainExactly | src/monitor/lhm_bridge.cpp:307-361 | after a successful backoff restart the next poll restarts again if and only if the first read found no usable line |
| LhmBridge.DyingHelper | src/monitor/lhm_bridge.cpp:329-374 | a helper that always dies takes a freshly started bridge to five failures in five polls |
| LhmBridge.RestartedTwice | src/monitor/lhm_bridge.cpp:307-361 | after that run two polls a second apart both start the helper |
| LhmBridge.UnavailableExactly | src/monitor/lhm_bridge.cpp:305-382 | in every run the polls of a bridge are all unavailable if it was not started and never otherwise; in the first case nothing changes |
| LhmBridge.FirstStartDecides | src/monitor/lhm_bridge.cpp:278-301 | a new bridge whose helper is missing or fails to start stays as it is in every run of polls |
| LhmBridge.EmptyLineHidesReading | src/monitor/lhm_bridge.cpp:203-211 | a line that delivers a reading delivers none when an empty line follows in the same drain |
| LhmBridge.ReturnDropped | src/monitor/lhm_bridge.cpp:212-216 | a carriage return at the end of a line is dropped, and nothing else |
| LhmBridge.BufferHoldsRest | src/monitor/lhm_bridge.cpp:144-211 | in every run the buffer is the text after the last newline of what arrived since the helper was started |
| LhmBridge.ReadingIsLastLine | src/monitor/lhm_bridge.cpp:203-216 | a delivered reading is the last complete line of that stream, completed by this poll, nonempty and usable |
| LhmBridge.LhmBridge.Initialize | src/monitor/lhm_bridge.cpp:278-301 | starts the helper once; a second call changes nothing |
| LhmBridge.LhmBridge.StartHelper | src/monitor/lhm_bridge.cpp:71-142 | leaves an empty buffer and a running helper exactly on success |
| LhmBridge.LhmBridge.ReadLatest | src/monitor/lhm_bridge.cpp:164-265 | result and buffer for a dead helper, a failed peek and every kind of drain |
| LhmBridge.LhmBridge.RetryAfterBackoff | src/monitor/lhm_bridge.cpp:306-327 | the waiting phase: nothing before the interval has passed, then a start that succeeds or counts as a failure |
| LhmBridge.LhmBridge.ReadAndCount | src/monitor/lhm_bridge.cpp:347-374 | the read and its effect on counter, interval and availability |
| LhmBridge.LhmBridge.Poll | src/monitor/lhm_bridge.cpp:305-375 | takes the object through exactly one step of the state machine the run lemmas are about |
| Grouping.SelectConcat | src/monitor/sensor_model.cpp:46-58 | concatenating buckets with different keys and selecting one key gives back the bucket |
| Grouping.FirstSeenConcat | src/monitor/sensor_model.cpp:33-44 | concatenating nonempty buckets keeps the order of their keys |
| Grouping.SameBuckets | src/monitor/sensor_model.cpp:61-72 | lists whose buckets agree up to order agree up to order |
| SensorTree.CategoryOrderIsComplete | src/monitor/sensor_model.cpp:46-58 | the category order lists each present category exactly once |
| SensorTree.KeysInOrderAscend | src/monitor/sensor_model.cpp:55-58 | the remaining categories come in strictly ascending order |
| SensorTree.TreeIsWellFormed | src/monitor/sensor_model.cpp:18-59 | one node per category, one group per unit group, none empty |
| SensorTree.ReadingsAreFiledByUnit | src/monitor/sensor_model.cpp:8-45 | a reading is in a group exactly when category and unit group are its own |
| SensorTree.FlattenIsPermutation | src/monitor/sensor_model.cpp:61-72 | flattening the built tree is a permutation of the readings |
| SensorTree.FlattenKeepsOrder | src/monitor/sensor_model.cpp:61-72 | it keeps the input order within each category and unit group |
| SensorTree.RebuildIsStable | src/monitor/sensor_model.cpp:18-72 | building from the flattened tree gives the same tree |
| SensorTree.IdsDistinctExactly | src/monitor/sensor_model.cpp:26 | node ids are distinct if and only if no two categories fold to the same id |
| SensorTree.IdsCanCollide | src/monitor/sensor_model.cpp:26 | categories CPU and cpu share an id |
| SensorTree.UnitGroups | src/monitor/sensor_model.cpp:8-16 | each known unit has a group of its own, under its name; all others share one |
| SensorTree.KnownCategoriesFirst | src/monitor/sensor_model.cpp:46-58 | processor, graphics, board and drives come first, in this order |
| SensorTree.SingleReading | src/monitor/sensor_model.cpp:18-59 | the tree of a single reading |
| SensorTree.IdIsFolded | src/monitor/sensor_model.cpp:26 | an id has no upper case letter and no space, keeps each letter's place in the alphabet, and is stable |
| SensorTree.NetworkId | src/monitor/sensor_model.cpp:26 | the id of "Network Card" |
| SensorTree.AddReading | src/monitor/sensor_model.cpp:33-44 | find-or-create extends the groups of the readings seen so far |
| SensorTree.FileReadings | src/monitor/sensor_model.cpp:20-45 | the map holds, for every category of the readings, its node |
| SensorTree.BuildHardwareTree | src/monitor/sensor_model.cpp:18-59 | the loops compute the specified tree |
| SensorTree.FlattenHardwareTree | src/monitor/sensor_model.cpp:61-72 | the three loops compute the specified flat list |
| CsvExport.ReadEscaped | src/report/csv_exporter.cpp:14-22 | an escaped field and its separator are read back as the field, if and only if it is readable |
| CsvExport.ReadRow | src/report/csv_exporter.cpp:61-70 | a row is read back field by field, if and only if all its fields are readable |
| CsvExport.TableRoundTrip | src/report/csv_exporter.cpp:24-74 | every table is read back exactly, if and only if no field has a carriage return without a comma, quote or line feed |
| CsvExport.ResultsRoundTrip | src/report/csv_exporter.cpp:49-74 | the results file is read back as header and rows exactly when its text fields are readable |
| CsvExport.SensorsRoundTrip | src/report/csv_exporter.cpp:24-47 | the same for the sensor file |
| CsvExport.CarriageReturnSpoilsFile | src/report/csv_exporter.cpp:14-22 | a sensor named "Fan" followed by a carriage return makes the file malformed |
| CsvExport.IntTextInjective | src/report/csv_exporter.cpp:68 | different error counts are written differently |
| CsvExport.IntTextValue | src/report/csv_exporter.cpp:68 | the text of a number is its decimal form |
| CsvExport.ResultsDetermined | src/report/csv_exporter.cpp:61-70 | the rows determine every field of every result, the verdicts included |
| CsvExport.SensorsDetermined | src/report/csv_exporter.cpp:36-42 | so do those of a sensor file, up to the number format |
| CsvExport.SaveOneResult | src/report/csv_exporter.cpp:49-74 | the file for one failed test |
| CsvExport.SaveOneSensor | src/report/csv_exporter.cpp:24-47 | the file for one reading |
| CsvExport.SaveResults | src/report/csv_exporter.cpp:49-74 | succeeds exactly when the file opens and takes the marker; then it holds marker, header and one row per result |
| CsvExport.SaveSensors | src/report/csv_exporter.cpp:24-47 | the same for sensor data |

## Left out

- Prime.LucasLehmerTest: claims nothing for 65 <= p < 128, where the 128-bit square wraps; a shift by 128 or more has no defined result in the source and is excluded.
- Prime.MillerRabin: that the twelve witnesses reject every composite below 2^64 is an exhaustive computation; proved are the exact acceptance condition, the prime side, and the table of composites.
- ArtifactDetection.ArtifactDetector.Classify: with a component above 10001 pixels the regions are pieces of components without overlap, at least one for each component until the cap of 100; which pieces, and how many more, depends on the pixels left on the abandoned stack and is not stated.
- ArtifactDetection.ArtifactDetector.CompareFrame: the description text is left out.
- Dgemm.FoldIsProduct: over the reals; IEEE rounding and `std::fma` are not modelled, nor the 32-bit index arithmetic for N above 46340.
- PsuAnalysis.PsuEngine.Poll: powers and times are reals, so rounding of averages and percentages is not captured; the fields that only repeat a sample for display are left out.
- RamTest.RamEngine.ReportError: the flipped-bit count and the time stamp of a log entry are left out.
- MarchTheory.MarchDetects: couplings between bits of one word and address-decoder faults are not in the fault class; March C- with solid backgrounds does not claim the former.
- LhmBridge.LhmBridge.StartHelper: creating the pipe and the process and waiting for first data are a parameter that says whether the start succeeds.
- LhmBridge.LhmBridge.ReadLatest: parsing the JSON line is a parameter that says which lines yield readings.
- SensorTree.BuildHardwareTree: lower-casing is modelled for the letters A to Z, and strings are compared by code point rather than UTF-16 unit.
- CsvExport.SaveResults: write errors after the marker, which the source does not report, and line-end translation on Windows are not modelled.
- CsvExport.SaveSensors: the same, and the text of a floating point number is a parameter.
- The source loops are split into several methods, and in the RAM engine the loops of one shape share one method that is given the pass to perform.
- The AVX2 path of the bandwidth test, the MSVC branches and inline assembly.
- Sattolo's draws, seeds, clocks, process starts and I/O results are parameters; no statement depends on their distribution.
- `_mm_crc32_u64` is taken as eight byte steps on the low 32 bits.
- Memory allocation and locking, cache flushes, file handles, thread affinity, CPU detection.
- Throughput, latency and bandwidth figures, progress values, description strings.
- The stress loops around the kernels, `matvec` and the norms.
- Storage benchmark, sequential and verify modes.
- The safety guardian (`src/safety/guardian.cpp`): a one-shot latch over an engine list, which would only add easy members.
- The user interface, reports other than CSV, certificates, updater, network upload, sensor back ends, Vulkan and OpenCL setup.
