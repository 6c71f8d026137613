# Verified models of the Hoosat stratum bridge

The bridge stands between stratum miners and a Hoosat node. It hands out jobs built from block
templates, counts the shares that come back, submits blocks, follows each submitted block until
the chain pays for it, and keeps a table of those rewards. This project models the parts where
that is hard to get right and proves what they promise, for all inputs, all reachable states or
all interleavings.

| file | what it models |
|---|---|
| `Kernels.dfy` | vectors, matrices and kernels over exact reals, and the proof that a kernel has one dimension |
| `GaussianRank.dfy` | `computeRank`: Gaussian elimination that never rewrites a column it has passed, on an n by n array |
| `Xoshiro.dfy` | the xoshiro256++ generator and its seeding |
| `HeavyHash.dfy` | `GenerateMatrix` and the integer part of `bHeavyHash` |
| `RewardTable.dfy` | the `block_rewards` table with its partial unique index |
| `RewardTasks.dfy` | any number of `fetchAndUpdateReward` tasks over that table, with crashes, re-runs, races and errors |
| `RewardFetch.dfy` | one such task as written, and the steps of that machine which it performs |
| `RewardSplit.dfy` | the split of one coinbase payment over the wallet's blue blocks |
| `HeaderPreimage.dfy` | the bytes that the header hash is taken of, and a decoder for them |
| `JobMessages.dfy`, `CompactTarget.dfy` | the two job messages, and the compact difficulty form |
| `VarDiff.dfy` | the variable-difficulty tracker as a state machine over time |
| `RollingCounters.dfy` | the pruned per-minute counters against the full event log |
| `ShareAccounting.dfy` | the share counters of all workers and of the bridge, increment by increment |
| `JobRing.dfy` | the 32-slot job ring with its fee index, against the history of operations |
| `JobIds.dfy` | how concurrent additions draw their job ids |
| `TemplateCache.dfy` | the block-template cache shared by all goroutines |
| `ConnectionWrite.dfy` | the write lock, the bounded retry and the disconnect flag of a connection |
| `Extranonce.dfy` | extranonce allocation across wrap-around |
| `Encoding.dfy`, `Arithmetic.dfy`, `Sums.dfy`, `Basics.dfy` | byte orders, hexadecimal, powers, totals of finite maps, options |

Two styles are used. Code that one goroutine runs on its own state is a method or a class with
loops and invariants, proved against a specification function. Code whose point is that several
goroutines interleave is a machine: every database statement, atomic operation or locked section
is one step, a step that does not apply changes nothing, and so every sequence of steps is a run.
Where both exist, the method's contract ties the code to the machine.

Five results say that the code does less than one might expect:

- `RewardTasks.DoubleBooking`: when two tasks of one wallet pass the "already booked" query before
  either writes its link, the index refuses the second link, the refusal is only logged, and the
  wallet's total over all rows becomes twice the payment. `RewardTasks.NeverLosesExactly` gives the
  exact condition over whole runs (no link write of the wallet leaves its row without a link), and
  `RewardTasks.UndisturbedNeverOverbooked` a discipline that rules it out. Both look at one wallet:
  nothing that befalls other wallets matters. The total over linked rows is bounded in every run,
  and `RewardTasks.DrainedTotalIsPayments` shows that races only ever overbook.
- `JobRing.SharedHashForgotten`: the fee index is keyed by block hash, so two live jobs with one
  hash can make it forget a live fee job. `JobRing.HarmlessRunsExactly` gives the exact condition.
- `JobIds.SharingExactly`: the job counter is raised and read outside the lock, so two additions
  can draw one id, exactly when two are under way at once.
- `TemplateCache.StaleHitsExactly`: the cache lock is free while the node answers, so a template
  that was requested before an invalidation can be stored after it and served as a hit. That can
  happen exactly when, at the invalidation, the node has the request of a cached call whose answer
  is not stored yet.
- `VarDiff.ShareFreeDifficulty`: nothing in the repository counts shares into the tracker. Without
  counted shares it never leaves window 0, every tick that finds it a minute old cuts the difficulty
  to a tenth, and `VarDiff.FloorIsNotKept` takes it below the client handler's floor.

Comment and code disagree in one place: src/htnstratum/htnapi.go:314-315 says that only jobs
without a fee use the cache, the branch at line 317 does not ask. The model follows the branch.

`dafny verify dfyconfig.toml` verifies the whole project.

## Model

| member | source | states |
|---|---|---|
| `GaussianRank.ComputeRank` | src/pow/heavyhash.go:272-304 | over exact reals and any n: n - rank is the one dimension of the kernel, so the rank is n exactly when only the zero vector is sent to zero |
| `GaussianRank.ReduceColumn` | src/pow/heavyhash.go:281-302 | one pass of the outer loop keeps the invariant of a logical matrix with the input's kernel, and the rank moves exactly when the column got a pivot |
| `GaussianRank.FindPivot` | src/pow/heavyhash.go:282-287 | the first unselected row that is not zero in the column, or n when there is none |
| `GaussianRank.EliminateColumn` | src/pow/heavyhash.go:291-300 | both inner loops together divide the pivot row and subtract it from every other row, right of the column only |
| `GaussianRank.ScalePivotRow` | src/pow/heavyhash.go:291-293 | the pivot row right of the column is divided by the pivot, everything else keeps its value |
| `GaussianRank.SubtractPivotRow` | src/pow/heavyhash.go:295-299 | one row loses its own multiple of the pivot row right of the column, also when the skip test fires |
| `GaussianRank.RowReductionKeepsKernel` | src/pow/heavyhash.go:291-300 | dividing one row and subtracting multiples of it from the others changes no solution |
| `GaussianRank.PivotStepReduces` | src/pow/heavyhash.go:288-301 | although the array's passed columns are stale, the logical matrix takes a true row reduction at each pivot |
| `GaussianRank.PivotStep` | src/pow/heavyhash.go:288-301 | a column with a pivot keeps the elimination invariant with the input matrix |
| `GaussianRank.NoPivotStep` | src/pow/heavyhash.go:282-288 | a column without a candidate keeps it too, as a free column |
| `GaussianRank.FinishedParametrises` | src/pow/heavyhash.go:281-303 | at the end the entries in free columns can be chosen at will and determine the kernel vector |
| `Kernels.DimensionZero` | src/pow/heavyhash.go:272-304 | kernel dimension zero holds exactly when the kernel is trivial |
| `Kernels.CoordinatesHaveOneSize` | src/pow/heavyhash.go:272-304 | two sets of coordinates of one space have the same size, by exchange |
| `Kernels.DimensionIsUnique` | src/pow/heavyhash.go:272-304 | a kernel has only one dimension, so the rank is pinned for every matrix, singular ones included |
| `Kernels.TrivialKernelIsInjective` | src/pow/heavyhash.go:67-70 | a matrix of full rank never sends two vectors to the same product |
| `Xoshiro.StepBackUndoesStep` | src/pow/xoshiro.go:27-38 | the explicit inverse undoes the state update |
| `Xoshiro.StepUndoesStepBack` | src/pow/xoshiro.go:27-38 | and the update undoes the inverse |
| `Xoshiro.StepsBijective` | src/pow/xoshiro.go:27-38 | any number of steps is a bijection on states, with its inverse |
| `Xoshiro.SeedsNeverMerge` | src/pow/xoshiro.go:27-38 | after any number of steps two states are equal exactly when they started equal |
| `Xoshiro.NonZeroNeverReachesZero` | src/pow/xoshiro.go:27-38 | the all-zero state is reached exactly from itself |
| `Xoshiro.HashesNeverMerge` | src/pow/xoshiro.go:17-38 | distinct hashes give states that stay distinct for ever |
| `Xoshiro.Generator.constructor` | src/pow/xoshiro.go:17-25 | the four state words are, as numbers, the little-endian words of the hash |
| `Xoshiro.Generator.Uint64` | src/pow/xoshiro.go:27-38 | the in-place assignments make exactly one step, and the result is the number ((x * 2^23) mod 2^64 + x div 2^41 + s0) mod 2^64 with x = (s0 + s3) mod 2^64 |
| `Xoshiro.OutputValue` | src/pow/xoshiro.go:28-28 | the output of every state as that number |
| `Xoshiro.StepUpdates` | src/pow/xoshiro.go:29-36 | the new state bit by bit, as sums of old bits at their places |
| `HeavyHash.GenerateMatrix` | src/pow/heavyhash.go:41-72 | the endless loop, on every hash for which some round is invertible: it returns the first invertible matrix of the stream, with every entry in 0..15 |
| `HeavyHash.GenerateWithin` | src/pow/heavyhash.go:41-72 | on every hash, any number of rounds of that loop: no answer exactly when none of them gave an invertible matrix |
| `HeavyHash.RoundHasNibbles` | src/pow/heavyhash.go:46-66 | every matrix of every seed has its entries in 0..15 |
| `HeavyHash.RoundsDetermineDraws` | src/pow/heavyhash.go:46-66 | two rounds of any seeds give the same matrix exactly when the generator gave the same 256 words |
| `HeavyHash.FillMatrix` | src/pow/heavyhash.go:46-66 | the nested loops consume 256 words and put nibble j mod 16 of word 4i + j div 16 at (i, j) |
| `HeavyHash.FillBlock` | src/pow/heavyhash.go:48-64 | sixteen assignments spread one word over sixteen entries and touch no other |
| `HeavyHash.HasFullRank` | src/pow/heavyhash.go:67-70 | the test for rank 64 accepts exactly the invertible matrices |
| `HeavyHash.NibblesReassemble` | src/pow/heavyhash.go:49-64 | every bit of a generator word can be read back from its nibbles |
| `HeavyHash.NibblesDetermineWord` | src/pow/heavyhash.go:49-64 | words with the same sixteen nibbles are equal |
| `HeavyHash.NibblesSpellWord` | src/pow/heavyhash.go:49-64 | the sixteen nibbles, the low one first, are the hexadecimal digits of the word as a number |
| `HeavyHash.RoundSpellsDraws` | src/pow/heavyhash.go:46-66 | sixteen entries from column 16b of row i on are the digits of draw 4i + b, so the matrix reassembles to the generator outputs |
| `HeavyHash.ZeroSeedNeverInvertible` | src/pow/heavyhash.go:41-72 | from the all-zero hash no round ever gives an invertible matrix |
| `HeavyHash.TruncatedSum` | src/pow/heavyhash.go:466-469 | the uint16 accumulation of 64 products equals the exact sum and is at most 14400 |
| `HeavyHash.Multiply` | src/pow/heavyhash.go:456-471 | every product entry fits four bits and is, in units of 1024, the real inner product of its row with the halves of the hash bytes, the high half first |
| `HeavyHash.MixedIsProduct` | src/pow/heavyhash.go:465-471 | the shifted exact sum is that inner product |
| `HeavyHash.NibblesPack` | src/pow/heavyhash.go:474-477 | the two shifted halves of a byte do not overlap: the OR is the pair of nibbles |
| `HeavyHash.XorByteUndone` | src/pow/heavyhash.go:476-476 | masking a byte twice with the same value gives it back |
| `HeavyHash.XorByteBits` | src/pow/heavyhash.go:476-476 | xor of bytes, bit by bit |
| `HeavyHash.MaskByte` | src/pow/heavyhash.go:476-476 | xor with the hash byte recovers exactly the packed pair of products |
| `HeavyHash.BHeavyHash` | src/pow/heavyhash.go:456-482 | for every hash the two halves of the mask on byte i are, in units of 1024, the real inner products of rows 2i and 2i + 1 with the halves of the hash |
| `HeavyHash.HeavyHashOf` | src/pow/pow.go:168-186 | generation and hash together, for all hashes and any number of rounds: the matrix used is the first invertible one, no sum of it exceeds 14400, and the masks are its inner products with the hash |
| `RewardTable.LinkedTotalByBlock` | src/htnstratum/db.go:79-83 | under the unique index a total over linked rows equals the total over distinct linked blocks |
| `RewardTable.MiningDB.RecordBlock` | src/htnstratum/db.go:93-104 | inserts a pending row or leaves a present one alone, and keeps the index |
| `RewardTable.MiningDB.UpdateReward` | src/htnstratum/db.go:107-116 | sets reward and status of one row, nothing for an unknown block, and keeps the index |
| `RewardTable.MiningDB.SetAcceptingBlockHash` | src/htnstratum/db.go:119-128 | fails exactly when another row of the wallet holds the pair, and then changes nothing; the index is kept |
| `RewardTable.MiningDB.HasAcceptingBlockForWalletExcluding` | src/htnstratum/db.go:131-147 | true exactly when some other row of the wallet is linked to the block |
| `RewardTable.MiningDB.GetTotalAtomsByWallet` | src/htnstratum/db.go:251-255 | the sum of the reward column over the wallet's rows |
| `RewardTable.MiningDB.GetBlock` | src/htnstratum/db.go:259-278 | the row of the block, or none |
| `RewardTasks.StepKeepsSound` | src/htnstratum/share_handler.go:536-689 | every step of every task keeps unique links, links to blocks that merged the row's block as blue, and rewards that such a block paid |
| `RewardTasks.RunKeepsSound` | src/htnstratum/share_handler.go:536-689 | the same at every moment of every interleaving from the empty table |
| `RewardTasks.LinkedRowsNeverOverbooked` | src/htnstratum/share_handler.go:536-689 | over every interleaving with crashes, re-runs and errors, the rewards on a wallet's linked rows total at most the payments of the distinct linked blocks |
| `RewardTasks.BackedExactly` | src/htnstratum/share_handler.go:668-676 | a step breaks "every reward of the wallet stands on a linked row" exactly when it is a link write of the wallet that leaves its row without a link |
| `RewardTasks.NeverLosesExactly` | src/htnstratum/share_handler.go:668-676 | over whole runs: every reward of the wallet stands on a linked row at every moment exactly when no link write of the wallet is lost |
| `RewardTasks.AllRowsAreLinkedRows` | src/htnstratum/db.go:251-255 | a wallet's total over all rows equals its linked total exactly when no rewarded row lacks a link |
| `RewardTasks.AllRowsNeverOverbooked` | src/htnstratum/share_handler.go:536-689 | in runs that lose no link write of the wallet, its total over all rows is at most the payments, whatever befalls other wallets |
| `RewardTasks.StepKeepsSettling` | src/htnstratum/share_handler.go:592-688 | races included, every verdict on a block of the wallet, stored or about to be, agrees with the chain and with the links in the table, as long as the database works for it and its tasks find their blocks |
| `RewardTasks.RunKeepsSettling` | src/htnstratum/share_handler.go:592-688 | the same at every moment of every such run |
| `RewardTasks.OnePayeePerPayment` | src/htnstratum/share_handler.go:592-688 | for any task order, crash, re-run and race: once the wallet is drained, each paid pair has exactly one linked row with the full payment; its other blue blocks are merge duplicates with 0, or carry the payment unlinked when the wallet lost a link write |
| `RewardTasks.DrainedTotalIsPayments` | src/htnstratum/share_handler.go:592-688 | once the wallet is drained, races included: its linked total is exactly what the linked blocks paid, its total over all rows is at least that, and equal exactly when no rewarded row lacks its link |
| `RewardTasks.UndisturbedRunsSettleExactly` | src/htnstratum/share_handler.go:592-688 | when no other task of the wallet falls between check and link write and every task of the wallet finds its block: one row with the full payment, merge duplicates with 0, and a total equal to the payments, whatever befalls other wallets |
| `RewardTasks.RunLinksPay` | src/htnstratum/share_handler.go:645-671 | in every run a link names a block that merged the row's block as blue and pays its wallet |
| `RewardTasks.UndisturbedRunsNeverRace` | src/htnstratum/share_handler.go:596-671 | when no check of the wallet falls between another check and link write of it, at most one of its tasks waits to link |
| `RewardTasks.UndisturbedNeverOverbooked` | src/htnstratum/share_handler.go:596-671 | in such runs no link write of the wallet is lost and its total over all rows never exceeds the payments, whatever tasks crash, give up or fail to book and whatever other wallets do |
| `RewardTasks.RaceFreeRunsLoseNoLink` | src/htnstratum/share_handler.go:669-671 | without a link write of the wallet while another of its blocks waits for the same pair, the index never refuses it a link |
| `RewardTasks.DoubleBooking` | src/htnstratum/share_handler.go:596-676 | whenever a chain block merges two recorded blocks of a wallet and pays it, an interleaving books the payment twice |
| `RewardTasks.DoubleBookingExample` | src/htnstratum/share_handler.go:596-676 | a concrete node and run that end with 200 atoms for a payment of 100 |
| `RewardFetch.WalkChain` | src/htnstratum/share_handler.go:590-677 | the scan decides by the first chain block that it hears of and that merged the block: red, blue without payment, merge duplicate, or the payment and its link; otherwise nothing changes |
| `RewardFetch.FetchAndUpdateReward` | src/htnstratum/share_handler.go:536-689 | the retry loop as written: the verdict of the first such chain block in the first attempt that has one goes into the task's own row, red with 0 when there is none, no other row changes, and the machine run with exactly the task's own steps ends in the same table |
| `RewardFetch.FoundOnce` | src/htnstratum/share_handler.go:558-683 | that attempt and that chain block are unique |
| `RewardFetch.WalkFollowsMachine` | src/htnstratum/share_handler.go:590-677 | the checks and the link write of one scan, in program order, are steps of the machine to its verdict or the next attempt |
| `RewardFetch.TaskFollowsMachine` | src/htnstratum/share_handler.go:536-689 | asks, checks, link and final update in program order take the machine from a fresh task to its end |
| `RewardFetch.RecordSettles` | src/htnstratum/share_handler.go:477-490 | a recorded block and its task, among any other tasks, end with the verdict in the row and everything else untouched |
| `RewardFetch.RerunSettles` | src/htnstratum/stratum_server.go:146-160 | the re-run of a pending row, from any ledger, gives it the verdict of the chain and touches nothing else |
| `RewardFetch.CrashRecovers` | src/htnstratum/stratum_server.go:146-160 | whatever a task was doing when it crashed, the re-run books the payment and its link, a merge duplicate, blue without payment or red, as the first merging chain block says; a crash between link and final update costs nothing |
| `HeaderPreimage.SerializeBlockHeader` | src/htnstratum/hasher.go:66-121 | the loops feed the hasher exactly the preimage |
| `HeaderPreimage.WriteLevels` | src/htnstratum/hasher.go:73-78 | the nested loop feeds every level with its own length prefix |
| `HeaderPreimage.PackFields` | src/htnstratum/hasher.go:84-101 | the five fields of the struct, in declaration order and with their widths, are the packed part of the preimage |
| `HeaderPreimage.PadBlueWork` | src/htnstratum/hasher.go:104-112 | the padding loop gives an even length, at most one digit more, and the same number |
| `HeaderPreimage.HeaderComesBack` | src/htnstratum/hasher.go:66-121 | a decoder recovers every field of a well-formed header except timestamp and nonce, and consumes all bytes |
| `HeaderPreimage.PreimagesCoincide` | src/htnstratum/hasher.go:66-121 | two well-formed headers have one preimage exactly when all those fields agree as numbers, BlueWork also in the bytes that it takes |
| `HeaderPreimage.PreimageLayout` | src/htnstratum/hasher.go:66-121 | the place, width and byte order of every field in the preimage, and that nothing else is there |
| `HeaderPreimage.LevelLayout` | src/htnstratum/hasher.go:73-78 | each level of parents stands behind its own eight-byte count |
| `HeaderPreimage.HashPlace` | src/htnstratum/hasher.go:75-77 | hash j of a level stands at byte 32j |
| `HeaderPreimage.TimestampAndNonceIgnored` | src/htnstratum/hasher.go:84-96 | for every header, well-formed or not, timestamp and nonce leave no trace |
| `Encoding.DecodeUndoesEncode` | src/htnstratum/hasher.go:211-214 | hexadecimal decoding recovers any bytes |
| `Encoding.EncodeUndoesDecode` | src/htnstratum/hasher.go:211-214 | re-encoding a decoded even-length string gives it back in lower case |
| `Encoding.DecodeReads` | src/htnstratum/hasher.go:211-214 | the bytes of an even number of digits are, big-endian, the number that the digits denote |
| `Encoding.SameBytesExactly` | src/htnstratum/hasher.go:211-214 | two such strings have the same bytes exactly when they have the same length and number |
| `Encoding.LittleEndianAt` | src/htnstratum/hasher.go:199-209 | byte i of a written number is its digit i in base 256 |
| `Encoding.HexRoundTrip` | src/htnstratum/hasher.go:131-137 | printing a number in hexadecimal and parsing it gives the number back |
| `Encoding.PaddedHexIsFixed` | src/htnstratum/hasher.go:151-151 | a number that fits the padded width is printed with exactly that many digits |
| `Encoding.FixedHexSpellsBytes` | src/htnstratum/hasher.go:145-151 | printing a big-endian word spells out its bytes |
| `JobMessages.GenerateJobHeader` | src/htnstratum/hasher.go:123-139 | the four words of the small form carry exactly the header bytes |
| `JobMessages.GenerateLargeJobParams` | src/htnstratum/hasher.go:141-159 | always 80 lower-case digits that decode to the header bytes and the little-endian timestamp |
| `JobMessages.SwappedTimestamp` | src/htnstratum/hasher.go:143-149 | writing the timestamp big-endian and reading it little-endian prints its little-endian bytes |
| `JobMessages.BothForms` | src/htnstratum/hasher.go:123-159 | both messages carry the same header, and the timestamp comes back from the large one |
| `CompactTarget.CalculateTarget` | src/htnstratum/hasher.go:161-179 | the target is floor(mantissa * 256^(size - 3)), also below size 3 |
| `CompactTarget.LargerSizeWins` | src/htnstratum/hasher.go:161-179 | from size 3 up any normalised value of a larger size beats every value of a smaller one |
| `CompactTarget.TargetsMonotone` | src/htnstratum/hasher.go:161-179 | on normalised values a larger bits value never gives a smaller target, and a strictly larger one from size 3 up |
| `VarDiff.VarDiffStats.Tick` | src/htnstratum/share_handler.go:886-949 | one pass over a worker is the tick of the state machine |
| `VarDiff.VarDiffStats.UpdateVarDiff` | src/htnstratum/share_handler.go:964-970 | stores the new difficulty, stops the tracker at window 0 and returns the old difficulty |
| `VarDiff.VarDiffStats.StartVarDiff` | src/htnstratum/share_handler.go:973-978 | starts a stopped tracker with no shares, leaves a running one alone |
| `VarDiff.VarDiffStats.SetClientVardiff` | src/htnstratum/share_handler.go:990-995 | update with a floor of 0.00001, then start |
| `VarDiff.FirstBreach` | src/htnstratum/share_handler.go:913-927 | the scan stops early exactly when some cleared window from 1 on is breached |
| `VarDiff.ClearedWindowAdvances` | src/htnstratum/share_handler.go:937-947 | a window cleared within its bounds is left for the next, with start, shares and difficulty unchanged |
| `VarDiff.UnfinishedWindowWaits` | src/htnstratum/share_handler.go:929-948 | an unfinished window without breach or excess changes nothing |
| `VarDiff.BreachRescales` | src/htnstratum/share_handler.go:913-935 | a breach of an earlier window or an excess in this one rescales by the ratio and stops the tracker |
| `VarDiff.FinalStage` | src/htnstratum/share_handler.go:903-911 | the last window rescales exactly when the rate is off by five percent or more |
| `VarDiff.OnRateTick` | src/htnstratum/share_handler.go:886-949 | on rate, a tick only moves the window, exactly when its time is up |
| `VarDiff.OnRateKeepsDifficulty` | src/htnstratum/share_handler.go:886-949 | through any run on rate, start and difficulty stay and the window never falls |
| `VarDiff.ExpectedRateReachesLastWindow` | src/htnstratum/share_handler.go:869-949 | a worker at the expected rate is after n minutes in the window that n minutes clear, the last one from minute 240 on, with its difficulty unchanged |
| `VarDiff.StepKeepsSane` | src/htnstratum/share_handler.go:886-995 | every step keeps the window in 0..6, a stopped tracker at window 0, and a share behind every window above 0 |
| `VarDiff.TickScales` | src/htnstratum/share_handler.go:903-945 | every adjustment multiplies the difficulty by a positive factor |
| `VarDiff.DifficultyPositive` | src/htnstratum/share_handler.go:886-995 | over every run the difficulty is positive exactly when it was at the start or the client handler has set it since |
| `VarDiff.RunsStaySane` | src/htnstratum/share_handler.go:886-995 | all of these for every run of a new worker's tracker |
| `VarDiff.LowerAdjustment` | src/htnstratum/share_handler.go:937-945 | a lower-bound adjustment lands between a tenth and 95 percent of the difficulty |
| `VarDiff.UpperAdjustment` | src/htnstratum/share_handler.go:929-935 | too many shares before the window is over raise the difficulty by the window's tolerance or more |
| `VarDiff.ShareFreeRuns` | src/htnstratum/share_handler.go:930-948 | without counted shares the tracker stays at window 0 and a tick after a minute cuts the difficulty to a tenth |
| `VarDiff.ShareFreeDifficulty` | src/htnstratum/share_handler.go:886-995 | after any share-free run the difficulty is the last one set, times a tenth for every tick since then that found the tracker a minute old |
| `VarDiff.FloorIsNotKept` | src/htnstratum/share_handler.go:990-995 | for every k some share-free run ends at the client handler's floor times 0.1 to the k |
| `RollingCounters.Prune` | src/htnstratum/share_handler.go:192-213 | the deletion loop keeps exactly the entries from the cutoff on |
| `RollingCounters.RollingStats.UpdateRollingCounters` | src/htnstratum/share_handler.go:176-214 | the four maps stay the exact image of the retained part of the log, with at most 1441 keys each |
| `RollingCounters.RollingStats.GetRollingShares` | src/htnstratum/share_handler.go:804-826 | the pruned maps give the counts of the full log over the last 1440 minutes |
| `RollingCounters.RollingStats.GetOneHourAverageHashrateGHs` | src/htnstratum/share_handler.go:784-802 | the full log's difficulty sum over 60 minutes, per second |
| `RollingCounters.RollingStats.GetRollingAverageHashrateGHs` | src/htnstratum/share_handler.go:760-782 | the full log's difficulty sum over 1440 minutes, per second |
| `RollingCounters.BumpMirrors` | src/htnstratum/share_handler.go:183-213 | counting and pruning together mirror the log with one more event |
| `RollingCounters.FewKeys` | src/htnstratum/share_handler.go:193-213 | a map that mirrors a log has at most 1441 keys |
| `ShareAccounting.RunBalances` | src/htnstratum/share_handler.go:344-445 | at every moment, for every weighting of the counters, overall and records differ by what running submits still owe and the misfiled ones |
| `ShareAccounting.OverallIsSumOfRecords` | src/htnstratum/share_handler.go:344-445 | at quiescent points the weighted overall record is the sum of all records ever created, up to the misfiled submits |
| `ShareAccounting.ShareTotalsAgree` | src/htnstratum/share_handler.go:344-445 | found + stale + invalid agree exactly, removed records included |
| `ShareAccounting.ClassesDifferByMisfiled` | src/htnstratum/share_handler.go:397-404 | class by class, exactly the submits refused for their proof of work move from stale to invalid |
| `ShareAccounting.GetCreateBalances` | src/htnstratum/share_handler.go:128-160 | looking up or creating a record keeps the balance |
| `ShareAccounting.BlocksEqualShares` | src/htnstratum/share_handler.go:437-445 | blocks found equals shares found in each record and overall |
| `ShareAccounting.CountSubmit` | src/htnstratum/share_handler.go:345-445 | the branches of the handler: each counter of worker and bridge is raised exactly by the findings that should raise it |
| `ShareAccounting.SubmitIsCounted` | src/htnstratum/share_handler.go:344-445 | a submit run to its end among any others adds exactly the increments of its way out, to its own record and to the overall one |
| `ShareAccounting.DisconnectStartsAfresh` | src/htnstratum/share_handler.go:162-173 | after a disconnect the next submit starts a new record at zero, and the old one stays in the books |
| `ShareAccounting.RecordIsKept` | src/htnstratum/share_handler.go:128-160 | a client keeps its record: looking it up again changes nothing |
| `ShareAccounting.RecordsByWorker` | src/htnstratum/share_handler.go:133-140 | the connections of one worker of one wallet share a record, nameless clients only with their own address |
| `JobRing.MiningState.AddJob` | src/htnstratum/mining_state.go:39-65 | an addition with no other in between: the next id, the ring with the job under it, and a lookup of that id finds the job |
| `JobRing.MiningState.StoreJob` | src/htnstratum/mining_state.go:42-64 | the section under the lock, for whatever id the counter gave |
| `JobIds.SerialIdsDiffer` | src/htnstratum/mining_state.go:40-41 | additions that do not overlap on the counter never share an id |
| `JobIds.SharingExactly` | src/htnstratum/mining_state.go:40-41 | from such a state two additions can come to share an id exactly when two are under way at once |
| `JobRing.MiningState.GetJob` | src/htnstratum/mining_state.go:67-72 | the job in the slot of the id by Go's remainder, also for negative ids |
| `JobRing.RemIsGo` | src/htnstratum/mining_state.go:67-72 | the remainder leaves a multiple, is smaller than the divisor and has the sign of the dividend |
| `JobRing.MiningState.IsFeeJob` | src/htnstratum/mining_state.go:76-84 | true exactly for a block whose hash is in the index |
| `JobRing.MiningState.RemoveJob` | src/htnstratum/mining_state.go:86-93 | empties the slot and takes its hash out of the index |
| `JobRing.MiningState.ClearJobs` | src/htnstratum/mining_state.go:95-100 | empties ring and index and keeps the counter |
| `JobRing.RingRefinesHistory` | src/htnstratum/mining_state.go:39-100 | over every run, for any ids in any order, a slot holds exactly the latest job whose id is congruent to it mod 32 and not since removed or cleared |
| `JobRing.RecentJobsStay` | src/htnstratum/mining_state.go:39-72 | with increasing ids a job is found in its slot until it is removed, cleared or 32 ids old |
| `JobRing.FeeHashesAreLive` | src/htnstratum/mining_state.go:39-100 | every hash in the index belongs to a live job |
| `JobRing.FeeIndexIsBounded` | src/htnstratum/mining_state.go:39-100 | the index never holds more than 32 hashes |
| `JobRing.MarksAreFeeFlags` | src/htnstratum/mining_state.go:39-100 | the mark of a slot is the flag with which its live job was added |
| `JobRing.FeeExactStep` | src/htnstratum/mining_state.go:44-60 | an operation keeps "the index is exactly the live fee jobs" exactly when it does not take another live fee job's hash away |
| `JobRing.HarmlessRunsExactly` | src/htnstratum/mining_state.go:39-100 | over whole runs: the index is exact at every moment exactly when every operation is such |
| `JobRing.HarmlessRunsAreExact` | src/htnstratum/mining_state.go:39-100 | runs of such operations end with an exact index |
| `JobRing.DistinctRunsAreExact` | src/htnstratum/mining_state.go:39-100 | when live hashes are distinct the index is exactly the live fee jobs |
| `JobRing.SharedHashForgotten` | src/htnstratum/mining_state.go:86-93 | one block in two slots, plain and fee: removing the plain one makes the index forget the live fee job |
| `TemplateCache.ServedAnswersOwnRequest` | src/htnstratum/htnapi.go:286-356 | over every interleaving a template answers exactly the request its caller would have sent, and a hit was stored less than one TTL before |
| `TemplateCache.RequestsCoincide` | src/htnstratum/htnapi.go:286-305 | which callers ask the node the same: those of one address, unless they vote differently or, with the cache off, are different workers |
| `TemplateCache.BuildExtraData` | src/htnstratum/htnapi.go:286-305 | the extra data text that the branches build |
| `TemplateCache.HitsWereStored` | src/htnstratum/htnapi.go:317-344 | from any state on, every cached entry and every new hit was there at the start or goes back to a store step under that address at that time |
| `TemplateCache.RunKeepsSound` | src/htnstratum/htnapi.go:286-356 | every cache entry answers the shared request of its own address |
| `TemplateCache.SweepsAreInvisible` | src/htnstratum/htnapi.go:105-125 | leaving all sweeps out of a run changes no call in it and no later lookup |
| `TemplateCache.SweepLeavesFresh` | src/htnstratum/htnapi.go:116-122 | a sweep leaves exactly the entries that can still be hit |
| `TemplateCache.HitsAfterInvalidation` | src/htnstratum/htnapi.go:127-136 | a call begun after an invalidation is only ever served a hit that was stored after it |
| `TemplateCache.StaleHitsExactly` | src/htnstratum/htnapi.go:317-344 | a template requested before an invalidation can be served as a hit to a call begun after it exactly when the node has, at the invalidation, the request of some cached call whose answer is not stored yet |
| `TemplateCache.NoFlightNoStale` | src/htnstratum/htnapi.go:317-344 | when there is none, every hit of every later call in every run was requested after the invalidation |
| `TemplateCache.NodeCallsAreSerial` | src/htnstratum/htnapi.go:329-331 | over every interleaving at most one call is with the node |
| `TemplateCache.StoredIsServed` | src/htnstratum/htnapi.go:318-343 | what a call stores, the next caller of the address is served until one TTL later and not from then on |
| `TemplateCache.FlightIsReachable` | src/htnstratum/htnapi.go:326-336 | such a call is reachable from the empty cache |
| `TemplateCache.HtnApi.CleanupSweep` | src/htnstratum/htnapi.go:116-122 | the loop with deletion removes exactly the expired entries |
| `TemplateCache.HtnApi.InvalidateGBTCache` | src/htnstratum/htnapi.go:127-136 | empties the cache when caching is on |
| `TemplateCache.HtnApi.GetBlockTemplate` | src/htnstratum/htnapi.go:286-356 | one call: hit, miss with store, miss with node error, and uncached call, each with its answer, the cache after it and the two counters, and the same as the machine run with the steps of that call |
| `ConnectionWrite.StepKeepsSound` | src/gostratum/stratum_context.go:75-132 | every atomic operation keeps: the lock is held exactly while one goroutine is inside, and one winner of the disconnect |
| `ConnectionWrite.RunKeepsSound` | src/gostratum/stratum_context.go:75-132 | the same at every moment of every interleaving |
| `ConnectionWrite.WriteIsExclusive` | src/gostratum/stratum_context.go:101-113 | at most one goroutine is inside the connection write, and the disconnect notice is sent at most once |
| `ConnectionWrite.WritesAtMostOnce` | src/gostratum/stratum_context.go:75-113 | a call writes at most once, exactly once when it returns nil, and nothing when it began after the disconnect |
| `ConnectionWrite.CallsAlwaysReturn` | src/gostratum/stratum_context.go:115-132 | whatever the others do, a call returns after at most seven of its own operations |
| `ConnectionWrite.UndisturbedCallWrites` | src/gostratum/stratum_context.go:75-132 | to a connected client with the lock free a call writes once, returns nil, and leaves everything else as it was |
| `ConnectionWrite.BlockedCallGivesUp` | src/gostratum/stratum_context.go:115-132 | with the lock in other hands it gives up after three attempts without a write |
| `ConnectionWrite.LateCallIsRefused` | src/gostratum/stratum_context.go:75-78 | a call after the disconnect returns at once |
| `ConnectionWrite.FailuresRelease` | src/gostratum/stratum_context.go:102-111 | a refused deadline and a failing socket are errors that release the lock |
| `ConnectionWrite.DisconnectNotifies` | src/gostratum/stratum_context.go:190-200 | the first disconnect takes the flag and notifies when there is a channel, a later one changes nothing |
| `ConnectionWrite.Connection.Send` | src/gostratum/stratum_context.go:75-97 | nothing after the disconnect, an error when the encoding fails, and otherwise the retry loop |
| `ConnectionWrite.Connection.Disconnect` | src/gostratum/stratum_context.go:190-200 | the first one closes and notifies, any other does nothing |
| `ConnectionWrite.Connection.Write` | src/gostratum/stratum_context.go:101-113 | one attempt on the lock: blocked exactly when it is taken, free again at the end otherwise, one write exactly when it gets past the deadline |
| `ConnectionWrite.Connection.WriteWithBackoff` | src/gostratum/stratum_context.go:115-132 | the first attempt that finds the lock free decides result and write, three blocked ones are an error, and the machine fed with the lock, deadline and socket that the attempts meet returns the same |
| `RewardSplit.CoinbaseSumToAddress` | src/htnstratum/miner_rewards.go:380-407 | the uint64 sum is the payment modulo 2^64, so exact when it fits; matched exactly when some output pays the address |
| `RewardSplit.PaidToConcat` | src/htnstratum/miner_rewards.go:396-405 | the payment is the sum of what the single outputs pay |
| `RewardSplit.PaidToOne` | src/htnstratum/miner_rewards.go:397-404 | a single output pays its amount exactly when it is there and its address is the wanted one |
| `RewardSplit.FindMinedBlues` | src/htnstratum/miner_rewards.go:231-272 | the loop collects exactly the blocks counted as ours, in hash order |
| `RewardSplit.SortByHashSorts` | src/htnstratum/miner_rewards.go:270-270 | sorting by hash gives an ordered permutation |
| `RewardSplit.OrderIsUnique` | src/htnstratum/miner_rewards.go:266-271 | only one list in hash order has given contents, so the sorting algorithm does not matter |
| `RewardSplit.MergeSetOrderIrrelevant` | src/htnstratum/miner_rewards.go:231-272 | permuting the merge set leaves the list unchanged |
| `RewardSplit.LeqExactly` | src/htnstratum/miner_rewards.go:270-270 | the order of hashes: a prefix comes first, and otherwise the first difference decides |
| `RewardSplit.KeptExactly` | src/htnstratum/miner_rewards.go:177-183 | the filter keeps exactly the blocks of the wanted worker, or all when it is empty |
| `RewardSplit.KeptInOrder` | src/htnstratum/miner_rewards.go:179-183 | ... in hash order |
| `RewardSplit.SplitPayment` | src/htnstratum/miner_rewards.go:152-211 | unfiltered rows sum to the amount; k kept rows sum to k * portion + remainder and never exceed it; nothing overflows |
| `RewardSplit.FillRows` | src/htnstratum/miner_rewards.go:174-203 | one row per kept block in order, the remainder on the first kept one |
| `RewardSplit.SplitTotal` | src/htnstratum/miner_rewards.go:165-203 | such rows sum to k * portion + remainder |
| `RewardSplit.SplitIsCanonical` | src/htnstratum/miner_rewards.go:152-211 | permuting the merge set leaves the rows unchanged |
| `Extranonce.ClientListener.constructor` | src/htnstratum/client_handler.go:34-45 | a new listener starts the cycle |
| `Extranonce.ClientListener.OnConnect` | src/htnstratum/client_handler.go:47-75 | connection number c gets the digits of its number in the cycle, c mod 256^size, across every wrap-around |
| `Extranonce.AllottedNumber` | src/htnstratum/client_handler.go:66-68 | the digits denote the connection's number in the cycle |
| `Extranonce.ClientListener.OnDisconnect` | src/htnstratum/client_handler.go:77-90 | forgets the client and does not disturb the cycle |
| `Extranonce.ConsecutiveConnectionsDiffer` | src/htnstratum/client_handler.go:47-68 | any 256^size consecutive connections get pairwise distinct strings of 2 * size digits |
| `Extranonce.CycleRepeats` | src/htnstratum/client_handler.go:55-60 | one connection further the cycle repeats, so that bound is exact |

## Left out

- float64 rounding: ranks, difficulties, share ratios and difficulty sums are exact reals, and the eps test of the rank reads "is not zero".
- HeavyHash.GenerateMatrix: whether the loop ends is not proved, since it depends on the stream; the method is called with a round that is invertible, and `GenerateWithin` covers every hash for any number of rounds.
- BLAKE3, HMAC, address decoding and consensus hashing are foreign code; the models stop at the bytes handed to them.
- The transcendental hashes (`ComplexNonLinear`, `ForComplex`, the Hoohash versions) and `computeHoohashRank`: their meaning is IEEE rounding and library functions.
- `DiffToTarget`, `TargetToDiff`, `DiffToHash`, `BigDiffToLittle`, `stringifyHashrate`: rounded or display arithmetic.
- RewardFetch.FetchAndUpdateReward: the method runs one task alone, with node and database errors; other tasks and crashes are steps of the machine.
- RewardTasks, ShareAccounting, TemplateCache and ConnectionWrite hold their shared state in values, because many goroutines change it; locks and memory order below one step are not modelled.
- RewardTasks takes the node as fixed: reorganisations that move a block to another merge set are not modelled.
- Which wallet a found block is recorded for (the address in its coinbase payload) is an input.
- RewardTable: timestamps, worker names, paging queries and SQL text; SQLite's int64 limit on sums; an empty accepting-block hash, which no chain answer contains.
- VarDiff.VarDiffStats.Tick: one pass over one worker is atomic, though the source takes no lock; wrap-around of window times rate in uint is not modelled.
- VarDiff: counted shares come from the environment, since no code of the repository raises the counter.
- RollingCounters: minutes are natural numbers and the clock does not go back; LastShare and SharesDiff are not modelled.
- ShareAccounting: parsing, stale detection and the proof of work that decide the way out of a submit are inputs.
- That every recorded block met the network target is not claimed: shares between the two targets reach the recording code.
- JobRing and JobIds: jobCounter is unbounded.
- TemplateCache: the choice between miner and bridge address and the fee flag returned with the cache on; the worker name is taken as already sanitised.
- RewardSplit.SplitPayment: paid score and paid time of the rows; address, worker extraction and sanitising are parameters, and `sort.Slice` is an insertion sort together with the proof that the order is unique.
- ConnectionWrite: encoding, deadlines, the socket and the notice channel are answers from outside; a disconnect started by a write error is a disconnect step like any other.
- Ban list, web UI, Prometheus, logging, configuration, TLS, JSON, socket reading: plumbing.
