# Verified model of bergamot

bergamot downloads articles from Usenet servers, repairs what is damaged with PAR2 recovery
data, and keeps a queue of what it is doing. This project models four parts of it in Dafny and
proves properties of the models. `dafny verify dfyconfig.toml` checks everything.

**PAR2 repair.** `Bits`, `Gf16`, `BitWords`, `Generator`, `Order` build the field of 65536
elements from carry-less multiplication modulo 0x1100B and show that two generates it. `Galois`
and `MulTables` show that the lookup tables, the byte and nibble tables and the 16-byte chunk
loop all compute that field. `LinearAlgebra` and `Gauss` prove the in-place elimination a correct
solver, `Numbers`, `Totient`, `Bases` and `Vandermonde` say when the coefficient matrix is
nonsingular, and `SliceMap`, `Recovery` and `Repair` join this to the theorem that a successful
repair restores every byte of every file with lost slices, and that no repair harms an intact one.

**Queue coordinator.** `Queue` holds the accounts of articles, files and NZBs, `Scheduler` the
weighted fair queue over servers, `Selection` the choice of the next article, `Ledger` and
`History` the operations on queue and history as functions on one value, `Commands` what each
command does, `Keeping` that each keeps the books sound, `Restore` what a restart rebuilds.
`ParLosses` looks at the losses behind health, `Tracking` holds the views of what is in flight,
`Progress` why nothing gets stuck, and `Dispatch` the whole state with the steps of the main
loop on it. `Coordinator` is the program: a class whose methods are tied to those functions, up
to its main loop over any sequence of events. `QueueLaws` says what the invariants mean and
where the code falls short, `SelectionLaws`, `DispatchLaws` and `CommandLaws` what choosing,
dispatching and each command come to in terms of flags, priorities and entries; `Lineage` carries a promise about one NZB through whole runs, and
`RunLaws` says with it what becomes of NZBs that come back.

**NNTP client.** `BodyText` is the wire form of an article body, `NntpMachine` the protocol
machine, `NntpConnection` the machine driven over a stream of bytes.

**Small stores.** `SpeedLimiter` (token bucket), `ArticleLog` (bitset snapshot with write-ahead
log), `ServerVolume` (ring buffers and histories), `ArticleCache` (bounded cache) and
`UniqueNames` (file name de-duplication). `Common` and `Sums` are shared vocabulary.

## What the code gets wrong

Each of these is proved of the model, with the condition under which the code does what it
should.

- From slice index 32768 on `compute_base` returns one, so two such slices can never be repaired
  (`Bases.BasesCollide`, `Recovery.LateSlicesIrreparable`).
- Having as many recovery slices as missing slices is not enough: with exponents in progression
  the matrix is nonsingular if and only if the missing slices have different powers at the step
  (`Recovery.ProgressionRepair`, `Recovery.EnoughSlicesMayNotSuffice`). The parser keeps recovery
  packets that repeat an exponent, and the repair takes the first ones: two equal exponents among
  them make every repair of that many slices fail (`Recovery.EqualExponentsIrreparable`).
- Among NZBs of equal priority the last in the queue is downloaded first, because the sorted list
  is walked backwards, while docs/implementation/03-queue-coordinator.md promises the first. The
  picked one is the first if and only if it is the only one with something to download
  (`Selection.FirstComesLast`, `Selection.LaterAddedFirst`).
- A move with a missing or self anchor loses the NZB, because it is removed before the anchor is
  looked up; every other move of a queued NZB keeps it (`Coordinator.QueueCoordinator.MoveNzb`,
  `Commands.BadAnchorLoses`). The RPC interface only sends moves to an end or by an offset
  (crates/bergamot-server/src/rpc.rs:331-347), so no shipped caller can do this.
- Returning an NZB to the queue never completes it, over whatever run follows. What is in the
  history with anything left to download was given up (`Ledger.Shelved`, kept by
  `Keeping.EffectSound`), its losses come back with it, it stays beyond repair, and the first article
  that arrives or fails gives it up again (`RunLaws.ReturnedNeverCompletes`,
  `RunLaws.ReturnedIsGivenUpAgain`). One with nothing left stays done in the queue until a command
  moves it (`QueueLaws.ComesBackDone`, `QueueLaws.DoneIsIdle`), and so does one that a restart
  restores with every article done. Redownloading starts afresh
  (`QueueLaws.RedownloadedHasAChance`).
- After a return an article can be dispatched if and only if it was undefined, in an open file of
  an entry without `post_info` (`QueueLaws.ReturnOpens`). One that was in flight when its NZB was
  given up is still marked as running, and stays so, selected and reported never again, while the
  NZB is queued (`RunLaws.ReturnStrandsRunning`, `RunLaws.StrandedStays`). What enters the queue
  with something to download, nothing running and no empty file gets through: when nothing is in
  flight and nothing can be selected, it is in post-processing, paused or partly paused, if it has
  not left (`Ledger.Startable`, `Coordinator.QueueCoordinator.Quiescent`).
- Redownloading keeps the count of lost par2 articles. The losses that health is computed from are
  those of the data files if and only if that count agrees with the files, which reports preserve
  and a redownload with such losses breaks; that many losses then go unnoticed
  (`ParLosses.DataLostExact`, `ParLosses.ResetDrifts`, `ParLosses.LossesMasked`).
- A restart forgets how much par2 data an NZB has: from then on, over any run, a report gives it up
  if and only if it is the loss of an article outside its par2 files (`RunLaws.RestartForgetsPar`).
- A restart keeps history entries without their files. Redownloading such an entry puts an NZB
  into the queue whose whole size remains and of which nothing can be downloaded
  (`QueueLaws.ComesBackDone`, `Restore.RestoredEntryRight`).
- Without a post-processor, which the application always installs, a completed NZB keeps
  `post_info` in the history, so redownloading it puts it in the queue for good without ever
  selecting it; an article of it can be dispatched if and only if the entry had none
  (`QueueLaws.SilentCompletionBlocksRedownload`, `QueueLaws.RedownloadOpens`).
- Health in whole per mille overlooks losses: with par2 data an NZB is given up if and only if the
  loss beyond repair crosses a whole per mille, which every such loss does up to a thousand
  articles (`Queue.GivenUpBeyondRepair`). A new NZB that loses 200 articles of two thousand and then
  a small par2 article is not given up, although one article cannot be repaired any more
  (`ParLosses.ExcessLossUnnoticed`).
- A dispatch that finds the channel full counts as a failed article of the server it was meant
  for, and that is all it does (`Coordinator.QueueCoordinator.DispatchOne`, `Scheduler.RollBack`).
  This takes servers with more connections than the channel has room. The room is four times the
  configured number of connections, which the application takes to be the sum over its servers
  (crates/bergamot/src/app.rs:636-642), so no run of it finds the channel full
  (`Dispatch.RoomSuffices`, `Coordinator.QueueCoordinator.Run`).
- Starting TLS with a group cached leaves the NNTP machine believing in a group that the server has
  forgotten; machine and server stay in step if and only if none was cached
  (`NntpMachine.Machine.HandleStartTls`). The client starts TLS before it joins a group.
- A cached file whose flush fails leaves the rest of its bytes counted for good; the size stays
  exact if and only if no bytes were left to write (`ArticleCache.ArticleCache.FlushFile`).
- A quota month that starts on the 29th or later ends with every calendar month and, in a month
  that has its day, on that day as well, so it is closed twice then (`ServerVolume.QuotaMonth`,
  `ServerVolume.QuotaEndsTwice`). One that starts up to the 28th ends once a month.
- Records appended behind a torn one are misread; appends read back if and only if the log was
  whole (`ArticleLog.AppendReadsBack`).

A verification that reports no damage is believed: no slice is lost if and only if it lists every
file with slices (`SliceMap.NothingLost`), as the verifier's own results do
(`SliceMap.VerifierCovers`).

## Assumptions

A report concerns an article in flight and names the server it was assigned to or none, and a
worker takes an assignment off the channel before it reports on it (`Dispatch.Taken`);
post-processing ends for NZBs with all files complete, whose ids come from completion notices
(`Dispatch.Expected`; the effect of every command is proved without this). Servers have different
ids. Slices have even length where a repair is claimed to restore files. Requests to the NNTP
machine are made while it is idle, the server answers in order, and it answers GROUP with 211
exactly when it selects the group. Clocks do not run backwards. Replacing a file is one atomic
step.


## Model

| member | source | states |
|---|---|---|
| Gf16.MulIsRemainder | crates/bergamot-par2/src/galois.rs:3-46 | the field product is the remainder of the carry-less polynomial product modulo 0x1100B |
| Gf16.RemainderIsUnique | crates/bergamot-par2/src/galois.rs:3-46 | that remainder is the only word with this property, so the product is determined by it |
| Gf16.MulComm | crates/bergamot-par2/src/galois.rs:39-46 | multiplication commutes, for all words |
| Gf16.MulAssoc | crates/bergamot-par2/src/galois.rs:39-46 | multiplication is associative, for all words |
| Gf16.MulDistributes | crates/bergamot-par2/src/galois.rs:39-46 | multiplication distributes over XOR in its second argument |
| Gf16.MulDistributesLeft | crates/bergamot-par2/src/galois.rs:39-46 | and in its first |
| Order.ExpLimit | crates/bergamot-par2/src/galois.rs:18-27 | two raised to 65535 is one: the walk over the powers comes back to its start |
| Order.OrderOfX | crates/bergamot-par2/src/galois.rs:18-27 | two has order exactly 65535: a power of it is one if and only if 65535 divides the exponent |
| Order.ExpInjective | crates/bergamot-par2/src/galois.rs:18-27 | the 65535 powers the walk visits are pairwise different |
| Order.EveryWordIsAPower | crates/bergamot-par2/src/galois.rs:18-27 | every nonzero word is among them, so the logarithm table misses none |
| Order.NoZeroDivisors | crates/bergamot-par2/src/galois.rs:39-46 | a product is zero only when a factor is |
| Galois.Tables.constructor | crates/bergamot-par2/src/galois.rs:13-36 | building the tables gives every nonzero word its logarithm and every exponent below 131070 its power |
| Galois.Tables.WalkPowers | crates/bergamot-par2/src/galois.rs:18-27 | the doubling walk fills the tables so that log[exp[l]] is l for all 65535 exponents |
| Galois.Tables.NextPower | crates/bergamot-par2/src/galois.rs:23-26 | shifting and reducing a 17-bit value is multiplication by two in the field |
| Galois.Tables.RepeatPowers | crates/bergamot-par2/src/galois.rs:29-32 | the second half repeats the first, so a sum of two logarithms can be looked up unreduced |
| Galois.Tables.Multiply | crates/bergamot-par2/src/galois.rs:39-46 | the table product is the field product, with every index in bounds |
| Galois.Tables.Divide | crates/bergamot-par2/src/galois.rs:48-62 | the quotient times the divisor is the dividend |
| Galois.Tables.Inverse | crates/bergamot-par2/src/galois.rs:65-69 | a word times its inverse is one |
| Galois.Tables.Pow | crates/bergamot-par2/src/galois.rs:72-83 | the looked-up power is repeated multiplication, zero base and zero exponent included |
| Galois.PowerAdd | crates/bergamot-par2/src/galois.rs:72-83 | powers of a sum of exponents multiply |
| MulTables.MulTable.constructor | crates/bergamot-par2/src/galois.rs:98-134 | byte and nibble tables hold the products of the coefficient with every byte and nibble in place |
| MulTables.MulTable.FillBytes | crates/bergamot-par2/src/galois.rs:100-107 | the two byte tables are the products with low and high bytes |
| MulTables.MulTable.FillNibbles | crates/bergamot-par2/src/galois.rs:110-127 | the nibble tables are the low and high bytes of the products with shifted nibbles |
| MulTables.MulTable.MulU16 | crates/bergamot-par2/src/galois.rs:136-139 | XOR of the two looked-up words is the field product, for every coefficient and word |
| MulTables.MulAddScalar | crates/bergamot-par2/src/galois.rs:171-193 | the word loop and the odd last byte add the product of the source to the destination |
| MulTables.ScaleScalar | crates/bergamot-par2/src/galois.rs:412-430 | the same in place, as a product |
| MulTables.ChunkProductByte | crates/bergamot-par2/src/galois.rs:258-306 | the 16-byte nibble computation gives each byte of the product of each of its eight words |
| MulTables.MulAddVector | crates/bergamot-par2/src/galois.rs:258-322 | chunks and scalar tail together give the bytes of the scalar loop, for every length |
| MulTables.ScaleVector | crates/bergamot-par2/src/galois.rs:324-382 | chunks and scalar tail together scale the buffer as the scalar loop does |
| MulTables.MulAddWithTable | crates/bergamot-par2/src/galois.rs:150-169 | the destination gains the product over the shorter length, whichever path runs |
| MulTables.MulAddSlice | crates/bergamot-par2/src/galois.rs:142-148 | also for the zero coefficient that returns early |
| MulTables.ScaleInPlace | crates/bergamot-par2/src/galois.rs:384-410 | the buffer becomes its product, shortcuts for zero and one included |
| LinearAlgebra.SwapKeepsSolutions | crates/bergamot-par2/src/repair.rs:292-297 | exchanging two equations keeps the solutions |
| LinearAlgebra.ScaleKeepsSolutions | crates/bergamot-par2/src/repair.rs:299-308 | scaling an equation by a nonzero word keeps the solutions |
| LinearAlgebra.SumKeepsSolutions | crates/bergamot-par2/src/repair.rs:310-333 | adding a multiple of one equation to another keeps the solutions |
| LinearAlgebra.KernelVectorSolves | crates/bergamot-par2/src/repair.rs:283-290 | a column without a pivot gives a nonzero vector that the matrix sends to zero |
| LinearAlgebra.EqualRowsSingular | crates/bergamot-par2/src/repair.rs:276-290 | a matrix with two equal rows is singular |
| Gauss.FindPivot | crates/bergamot-par2/src/repair.rs:283-290 | finds a row with a nonzero entry at or below the diagonal if and only if there is one |
| Gauss.SwapRows | crates/bergamot-par2/src/repair.rs:292-297 | exchanges two rows of the flat matrix and of the right-hand sides |
| Gauss.NormaliseRow | crates/bergamot-par2/src/repair.rs:299-308 | scales the pivot row by the inverse of its pivot; columns left of the pivot need no work |
| Gauss.EliminateRow | crates/bergamot-par2/src/repair.rs:314-333 | adds the multiple of the pivot row to another row and its right-hand side |
| Gauss.ClearColumn | crates/bergamot-par2/src/repair.rs:310-334 | one more column is a unit column, and the system has the same solutions |
| Gauss.GaussEliminate | crates/bergamot-par2/src/repair.rs:276-336 | succeeds if and only if the matrix is nonsingular; then it is the identity and each word of the right-hand sides is the one solution of the original system |
| Bases.GcdLoop | crates/bergamot-par2/src/repair.rs:40-48 | Euclid's loop computes the greatest common divisor |
| Bases.NextCoprime | crates/bergamot-par2/src/repair.rs:30-32 | the inner loop stops at the next number coprime to 65535 and never beyond 65536 |
| Bases.ComputeBase | crates/bergamot-par2/src/repair.rs:27-38 | returns two raised to the index-th number coprime to 65535, and one past the last of them |
| Bases.TotientOfLimit | crates/bergamot-par2/src/repair.rs:27-38 | exactly 32768 numbers below 65535 are coprime to it |
| Bases.BaseIsNonzero | crates/bergamot-par2/src/repair.rs:27-38 | no base is zero |
| Bases.BasesCollide | crates/bergamot-par2/src/repair.rs:27-38 | two slices share a base exactly when both indices are 32768 or more |
| Bases.BaseOrder | crates/bergamot-par2/src/repair.rs:27-38 | a base has order 65535 exactly when its index is below 32768 |
| Bases.LateBaseIsOne | crates/bergamot-par2/src/repair.rs:33-37 | from index 32768 on the base is one |
| Vandermonde.ProgressionNonsingular | crates/bergamot-par2/src/repair.rs:145-161 | for exponents in arithmetic progression the matrix is nonsingular if and only if the bases have different powers at the step |
| Vandermonde.EqualPowersSingular | crates/bergamot-par2/src/repair.rs:145-161 | two bases with equal powers give an explicit kernel vector |
| SliceMap.BuildGlobalSliceMap | crates/bergamot-par2/src/repair.rs:226-247 | the map is the list of slices of all files in order |
| SliceMap.SlicesUpToLists | crates/bergamot-par2/src/repair.rs:226-247 | it lists every slice of every file, each once |
| SliceMap.SliceHoldsByte | crates/bergamot-par2/src/repair.rs:235-244 | a byte of a file lies in exactly the slice of its quotient |
| SliceMap.ByteHasSlice | crates/bergamot-par2/src/repair.rs:229-233 | every byte of a file has a slice |
| SliceMap.FindMissing | crates/bergamot-par2/src/repair.rs:249-274 | lists the lost slices: of a file whose first entry says missing or that has none all, of a damaged one exactly the bad ones, of an intact one none |
| SliceMap.SelectFlagged | crates/bergamot-par2/src/repair.rs:254-273 | the list is increasing and holds exactly the lost indices |
| SliceMap.LostAsVerified | crates/bergamot-par2/src/repair.rs:249-274 | the slices taken for lost are exactly those that the first entry of each file reports, and all of a file without one |
| SliceMap.NothingLost | crates/bergamot-par2/src/repair.rs:249-274 | when every verdict is good, no slice is lost if and only if every file with slices is listed |
| SliceMap.VerifierCovers | crates/bergamot-par2/src/verify.rs:23-52 | the verifier lists every file of the set, so for its results a good verdict means that nothing is lost |
| Recovery.RepairEquation | crates/bergamot-par2/src/repair.rs:145-171 | a recovery word, less the present slices, is the sum of the missing slices times powers of their bases |
| Recovery.ProgressionRepair | crates/bergamot-par2/src/repair.rs:145-161 | when the chosen exponents are in progression the repair matrix is nonsingular if and only if no two missing slices share a power |
| Recovery.ConsecutiveRepair | crates/bergamot-par2/src/repair.rs:145-161 | with consecutive exponents and at most 32768 source slices it always is |
| Recovery.SamePowerCondition | crates/bergamot-par2/src/repair.rs:145-161 | two slices share a power exactly when the multiples of their exponents agree modulo 65535 |
| Recovery.EqualExponentsIrreparable | crates/bergamot-par2/src/repair.rs:107-161 | two chosen recovery slices with the same exponent make the matrix singular, whatever is missing |
| Recovery.LateSlicesIrreparable | crates/bergamot-par2/src/repair.rs:145-161 | two missing slices from index 32768 on cannot be repaired with any exponents |
| Recovery.EnoughSlicesMayNotSuffice | crates/bergamot-par2/src/repair.rs:83-88 | enough recovery slices need not suffice: exponents 0 and 21845 cannot repair slices 0 and 2 |
| Repair.LoadRecovery | crates/bergamot-par2/src/repair.rs:107-119 | loads the chosen recovery slices, cut or padded to the slice size, or fails if and only if one cannot be read |
| Repair.AbsorbSlice | crates/bergamot-par2/src/repair.rs:166-177 | takes one present slice out of every right-hand side |
| Repair.FillColumn | crates/bergamot-par2/src/repair.rs:157-160 | writes the powers of one missing slice into its matrix column |
| Repair.AddSlice | crates/bergamot-par2/src/repair.rs:155-178 | one step of building the system keeps it built so far |
| Repair.BuildSystem | crates/bergamot-par2/src/repair.rs:131-184 | builds the repair matrix and right-hand sides, or fails because a present slice cannot be read |
| Repair.WriteBack | crates/bergamot-par2/src/repair.rs:190-214 | writes each repaired slice to its place, with every file at its length, up to the first write that fails, if any |
| Repair.RepairMissing | crates/bergamot-par2/src/repair.rs:107-224 | the outcome of a repair; success restores every byte of the files with lost slices, and no outcome damages an intact slice |
| Repair.RepairRecoverySet | crates/bergamot-par2/src/repair.rs:58-224 | end to end: the verdict is determined; success on a genuine set makes every file with lost slices the original and leaves the others alone; a failure before writing leaves the disk alone, and a failed write leaves the set genuine, so the repair can be tried again |
| Repair.VerdictMeans | crates/bergamot-par2/src/repair.rs:58-224 | success names how many slices were lost and exactly the files they belong to; each failure says why: too few recovery slices with both numbers, an unreadable slice among those used, a singular matrix of the first recovery slices, or a failed write |
| Repair.RepairSucceeds | crates/bergamot-par2/src/repair.rs:58-224 | a genuine set with consecutive exponents, enough readable recovery slices and at most 32768 source slices is repaired unless a write fails |
| Repair.Rebuild | crates/bergamot-par2/src/repair.rs:107-184 | the solved system: fails exactly when a slice cannot be read or the matrix is singular, and with genuine input the rows are the lost slices |
| Repair.PartKeepsOthers | crates/bergamot-par2/src/repair.rs:190-211 | a write of one slice, even one that stops halfway, leaves every other slice readable as it was |
| Repair.WritingKeepsPresent | crates/bergamot-par2/src/repair.rs:190-214 | wherever writing back stops, every intact slice is still intact |
| Inflight.ServerLaunch | crates/bergamot-nntp/src/scheduler.rs:164-167 | a new flight adds one and its size to its server and nothing to the others |
| Inflight.ServerLand | crates/bergamot-nntp/src/scheduler.rs:170-173 | a landing takes them away again |
| Scheduler.Weight | crates/bergamot-nntp/src/scheduler.rs:138-144 | the weight is positive, observed or not |
| Scheduler.EstimateBetween | crates/bergamot-nntp/src/scheduler.rs:185-207 | a new estimate lies between the old one and the observation |
| Scheduler.EstimateMoves | crates/bergamot-nntp/src/scheduler.rs:185-207 | the first observation is the estimate, each later one leaves seven tenths of the difference, and what took less than a millisecond or had no bytes is none |
| Scheduler.LowestLevelIsLeast | crates/bergamot-nntp/src/scheduler.rs:239-246 | the level found is the least among servers with capacity, and there is one unless all are full |
| Scheduler.LeastLoadedIsFirst | crates/bergamot-nntp/src/scheduler.rs:251-261 | the slot found is the first among those with least ratio and then fewest connections |
| Scheduler.SelectIsFair | crates/bergamot-nntp/src/scheduler.rs:238-261 | a server is selected unless none has capacity: of the lowest level, of least load, the first such |
| Scheduler.SelectsIdlest | crates/bergamot-nntp/src/scheduler.rs:138-261 | the selected server has a connection free and is not backed off; of those it is of the lowest level, of the least pending bytes for its estimated speed or half a million bytes a second and connection, of the fewest connections in use, and the first |
| Scheduler.CapacityMeansSelection | crates/bergamot-nntp/src/scheduler.rs:238-269 | available capacity is positive if and only if a server can be selected |
| Scheduler.AssignmentUsesOne | crates/bergamot-nntp/src/scheduler.rs:264-281 | each assignment to the selected server lowers the available capacity by one, so it is the number of assignments that can still be made |
| Scheduler.AllAvailable | crates/bergamot-nntp/src/scheduler.rs:264-274 | with nothing in flight and no server backed off it is the sum of all connections |
| Scheduler.LaunchAgrees | crates/bergamot-nntp/src/scheduler.rs:277-281 | assigning keeps every slot equal to the count and size of its flights and below its limit |
| Scheduler.LandAgrees | crates/bergamot-nntp/src/scheduler.rs:285-303 | completing keeps it too, and no saturating subtraction clips |
| Scheduler.RollBack | crates/bergamot-nntp/src/scheduler.rs:277-303 | assigning and failing at once restores the load; only the failure count moves |
| Scheduler.CompletionCounted | crates/bergamot-nntp/src/scheduler.rs:285-303 | an assigned article that lands leaves the load as it was and is counted once, as arrived with its bytes or as failed |
| Scheduler.ServerScheduler.AssignToServer | crates/bergamot-nntp/src/scheduler.rs:277-281 | only the slot of the server changes |
| Scheduler.ServerScheduler.CompleteOnServer | crates/bergamot-nntp/src/scheduler.rs:285-303 | only the slot of the server changes |
| Scheduler.ServerScheduler.SetBackoff | crates/bergamot-nntp/src/scheduler.rs:306-310 | backing off changes no count, so the slots still agree with the flights |
| Queue.NothingClips | crates/bergamot-queue/src/coordinator.rs:1000-1036 | the size of an open article is at most what remains of its file and its NZB |
| Queue.ReceivedBalanced | crates/bergamot-queue/src/coordinator.rs:996-1017 | after a success every counter is again the sum over the articles |
| Queue.MissedBalanced | crates/bergamot-queue/src/coordinator.rs:1019-1036 | after a failure too |
| Queue.RelabelBalanced | crates/bergamot-queue/src/coordinator.rs:725-741 | moving an article between undefined and running changes no account |
| Queue.FilesConserved | crates/bergamot-queue/src/coordinator.rs:1000-1036 | balanced files conserve: size is success plus failed plus remaining |
| Queue.GivenUpWithoutPar | crates/bergamot-queue/src/coordinator.rs:2047-2064 | without par2 data an NZB is given up if and only if a data article is lost |
| Queue.GivenUpBeyondRepair | crates/bergamot-queue/src/coordinator.rs:2047-2064 | with par2 data it is given up if and only if a whole number of per mille separates what is left from what must be left; then more is lost than can be repaired, and up to a thousand articles every greater loss gives it up |
| Queue.HealthMeans | crates/bergamot-queue/src/coordinator.rs:2047-2064 | health and critical health are the whole per mille of the articles not lost and not repairable, and the repairable ones the whole share of a tenth of the articles that the intact par2 bytes are of all |
| Queue.DoomStays | crates/bergamot-queue/src/coordinator.rs:1150-1162 | what makes an NZB doomed, more losses and less par2 data, never gets better by reports |
| Ledger.ReportedSound | crates/bergamot-queue/src/coordinator.rs:926-1059 | whatever is reported of an existing article, accounts, ids and exits stay sound |
| Ledger.FinishSound | crates/bergamot-queue/src/coordinator.rs:1079-1148 | completing keeps them sound and adds at most one exit |
| Ledger.GiveUpSound | crates/bergamot-queue/src/coordinator.rs:1164-1196 | giving up keeps them sound |
| Ledger.EnterSound | crates/bergamot-queue/src/coordinator.rs:1579-1595 | entering under the next id keeps ids distinct across queue and history |
| Ledger.MoveSound | crates/bergamot-queue/src/coordinator.rs:1331-1361 | a moved queue is as sound as before |
| Ledger.MovePermutes | crates/bergamot-queue/src/coordinator.rs:1331-1361 | taking an entry out and putting it back anywhere permutes the queue |
| History.NewFileBalanced | crates/bergamot-queue/src/coordinator.rs:1777-1838 | a freshly added file is balanced |
| History.BuildFiles | crates/bergamot-queue/src/coordinator.rs:1770-1838 | the totals added up over the parsed files are their sums, with the par2 share |
| History.ReturnedSound | crates/bergamot-queue/src/coordinator.rs:1579-1595 | returning from the history keeps the books sound |
| History.ProcessedSound | crates/bergamot-queue/src/coordinator.rs:1597-1636 | so does sending an entry to post-processing |
| History.ResetBalanced | crates/bergamot-queue/src/coordinator.rs:1638-1680 | a redownloaded entry is balanced with nothing downloaded |
| History.ResetStarts | crates/bergamot-queue/src/coordinator.rs:1638-1680 | a redownloaded entry has exact marks, every article undefined and is not doomed; it can start if and only if it has files and each has an article |
| History.RedownloadedSound | crates/bergamot-queue/src/coordinator.rs:1638-1680 | redownloading keeps the books sound |
| QueueLaws.AccountsConserved | crates/bergamot-queue/src/coordinator.rs:1000-1036 | in sound books size is success plus failed plus remaining, for every NZB and every file |
| QueueLaws.CountersAreSums | crates/bergamot-queue/src/coordinator.rs:1000-1036 | in sound books the counters of an NZB with files are the sizes and numbers of all its articles by what became of them, and those of each file are of its own |
| QueueLaws.CompletesExactlyWhenDone | crates/bergamot-queue/src/coordinator.rs:1061-1111 | an NZB that has not completed does so exactly with the report that finishes or fails its last article, if that does not give it up and no file without articles is unmarked |
| QueueLaws.OneExit | crates/bergamot-queue/src/coordinator.rs:1079-1196 | in sound books every id has left at most once; a given-up NZB is gone, a completed one is in post-processing or gone |
| QueueLaws.DoomedIsGivenUp | crates/bergamot-queue/src/coordinator.rs:1164-1196 | a doomed NZB is given up with its next article, even if that arrives |
| QueueLaws.MarkedUnreadIsDoomed | crates/bergamot-queue/src/coordinator.rs:1628-1636 | an NZB with an open article in a file marked complete is doomed, so no report completes it a second time |
| Lineage.RunObeys | crates/bergamot-queue/src/coordinator.rs:445-469 | a promise about one NZB that flags, dispatches and reports keep holds over every run while the NZB is queued, and the exits it rules out never happen |
| RunLaws.ReturnedNeverCompletes | crates/bergamot-queue/src/coordinator.rs:1579-1595 | over any run from its return an entry does not complete; with anything left to download it stays doomed, with nothing left it stays done and is not given up |
| RunLaws.ReturnedIsGivenUpAgain | crates/bergamot-queue/src/coordinator.rs:1579-1595 | whenever in a run a first article of it arrives or fails, it is given up again |
| QueueLaws.RedownloadedHasAChance | crates/bergamot-queue/src/coordinator.rs:1638-1680 | a redownloaded one is not doomed |
| QueueLaws.RedownloadOpens | crates/bergamot-queue/src/coordinator.rs:1638-1680 | after a redownload an article can be dispatched if and only if the entry had no post_info |
| QueueLaws.DoneIsIdle | crates/bergamot-queue/src/coordinator.rs:926-990 | an NZB without an open article is never dispatched and not in flight, and no report moves it or lets it leave |
| QueueLaws.ComesBackDone | crates/bergamot-queue/src/coordinator.rs:1579-1680 | a returned entry has nothing to download exactly as it had in the history; redownloaded without files it has its whole size remaining and nothing to download |
| RunLaws.RestartForgetsPar | crates/bergamot/src/app.rs:235-240 | over any run from a restart, a report about a restored NZB gives it up if and only if it is the loss of an article outside its par2 files, whatever par2 data there is |
| Keeping.EffectSound | crates/bergamot-queue/src/coordinator.rs:743-924 | every command keeps accounts, ids, exits and the history invariant, if reports are about NZBs that have not completed and post-processing ends only for completed ones |
| QueueLaws.SilentCompletionBlocksRedownload | crates/bergamot-queue/src/coordinator.rs:1100-1147 | without a post-processor every completed NZB keeps post_info, so it cannot be redownloaded |
| QueueLaws.ReturnOpens | crates/bergamot-queue/src/coordinator.rs:1579-1595 | after a return an article can be dispatched if and only if it was undefined in an open file of an entry without post_info |
| RunLaws.StrandedStays | crates/bergamot-queue/src/coordinator.rs:587-669 | an article that is running and not in flight stays so over any run while its NZB is queued, and no strategy can select it |
| RunLaws.ReturnStrandsRunning | crates/bergamot-queue/src/coordinator.rs:1579-1595 | such is, over any run, every article that was running when its NZB was given up, once it is returned |
| Selection.CountRunnableFiles | crates/bergamot-queue/src/coordinator.rs:694-723 | counts exactly the files that are open, pass the filter and have an undefined article |
| Selection.SortByPriority | crates/bergamot-queue/src/coordinator.rs:637-639 | the order is by priority, equals in queue order, and lists every entry |
| Selection.FirstInNzb | crates/bergamot-queue/src/coordinator.rs:639-665 | the first eligible article of one NZB, or none when there is none |
| Selection.NextArticleFiltered | crates/bergamot-queue/src/coordinator.rs:621-669 | the best eligible article: highest priority, of equals the last in the queue, first file, first segment; none exactly when none is eligible |
| Selection.NextArticle | crates/bergamot-queue/src/coordinator.rs:587-619 | each strategy takes its preferred files first and the others only when none of those is eligible |
| Selection.SelectionSound | crates/bergamot-queue/src/coordinator.rs:621-669 | a chosen article is undefined, in an open file below a cap and outside post-processing |
| Selection.WorkConserving | crates/bergamot-queue/src/coordinator.rs:587-669 | if some runnable file has room under both limits, every strategy chooses something |
| Selection.PickedUnique | crates/bergamot-queue/src/coordinator.rs:621-668 | the answer of the rule is unique |
| Selection.FollowsUnique | crates/bergamot-queue/src/coordinator.rs:587-619 | so is the answer of each strategy |
| Selection.FirstComesLast | crates/bergamot-queue/src/coordinator.rs:637-640 | the picked NZB is the first in the queue among the eligible ones of its priority if and only if it is the only one of them |
| Selection.LaterAddedFirst | crates/bergamot-queue/src/coordinator.rs:637-640 | of two equal NZBs the one added later is downloaded first |
| SelectionLaws.CapMeans | crates/bergamot-queue/src/coordinator.rs:627-634 | one file alone may use every connection; as soon as two have an article ready each has its own limit |
| SelectionLaws.PickedIsFirst | crates/bergamot-queue/src/coordinator.rs:621-669 | what is picked is undefined, neither paused unless forced nor in post-processing, below its cap, and nothing else that is so has a higher priority, the same one and a place further back, or a place before it in its NZB |
| SelectionLaws.StrategyTakes | crates/bergamot-queue/src/coordinator.rs:587-619 | each strategy takes the first in line of the first kind of files of which something is offered: balanced and rocket data first, aggressive par2 files first, sequential all alike |
| SelectionLaws.HigherFirst | crates/bergamot-queue/src/coordinator.rs:637-640 | of two NZBs the one of higher priority is downloaded first, for every two priorities |
| Tracking.LaunchCounts | crates/bergamot-queue/src/coordinator.rs:679-681 | incrementing keeps the per-file counters equal to the flights of each file |
| Tracking.LandCounts | crates/bergamot-queue/src/coordinator.rs:683-690 | decrementing keeps them, and drops keys at zero |
| Tracking.ReportedTracks | crates/bergamot-queue/src/coordinator.rs:926-1059 | after a report every other article in flight still exists and is running |
| Tracking.LaunchTracks | crates/bergamot-queue/src/coordinator.rs:519-540 | a dispatched article is running in the queue |
| Progress.CarriedReport | crates/bergamot-queue/src/coordinator.rs:926-1059 | after a report every running article of an NZB that entered startable is still in flight, and each such NZB has an open article or is in post-processing |
| Progress.CarriedLaunch | crates/bergamot-queue/src/coordinator.rs:519-540 | so it is after a dispatch |
| Progress.CarriedEnter | crates/bergamot-queue/src/coordinator.rs:1579-1595 | so it is after an NZB has entered |
| ParLosses.DataLostExact | crates/bergamot-queue/src/coordinator.rs:1150-1162 | the losses behind health are those of the data files if and only if the count of lost par2 articles has not drifted, or only par2 articles are lost |
| ParLosses.BookedKeepsDrift | crates/bergamot-queue/src/coordinator.rs:1019-1036 | no report of an existing article changes the drift |
| ParLosses.NewHasNoDrift | crates/bergamot-queue/src/coordinator.rs:1840-1913 | a new NZB starts without drift |
| ParLosses.ResetDrifts | crates/bergamot-queue/src/coordinator.rs:1638-1680 | a redownloaded NZB has as much drift as par2 articles were counted lost before |
| ParLosses.LossesMasked | crates/bergamot-queue/src/coordinator.rs:2047-2064 | so many lost articles of any kind do not doom it |
| ParLosses.LossRepairable | crates/bergamot-queue/src/coordinator.rs:2047-2064 | a new NZB of two thousand data articles and 200 bytes of par2 data survives the loss of up to 200 of them |
| ParLosses.ExcessLossUnnoticed | crates/bergamot-queue/src/coordinator.rs:2047-2064 | with 200 lost it survives the loss of a one-byte par2 article too, although only 199 can be repaired then |
| Progress.NothingLeftBehind | crates/bergamot-queue/src/coordinator.rs:587-723 | with nothing in flight and nothing to select, every NZB that was startable is in post-processing, paused or partly paused |
| Coordinator.QueueCoordinator.Quiescent | crates/bergamot-queue/src/coordinator.rs:445-563 | the same of every coordinator state; the ids that are excused are exactly those that entered without being startable |
| Coordinator.QueueCoordinator.Land | crates/bergamot-queue/src/coordinator.rs:926-960 | active map, file counter and server slot change as the report says, and stay in step when it names the right server |
| Coordinator.QueueCoordinator.constructor | crates/bergamot-queue/src/coordinator.rs:380-436 | a new coordinator is valid and empty, and its channel has room for every connection unless the servers have more of them than four times the configured number, and than 256 |
| Coordinator.QueueCoordinator.DispatchOne | crates/bergamot-queue/src/coordinator.rs:486-554 | dispatches the selected article to the selected server, changing exactly what that changes; otherwise nothing changes but one failure count of that server, and only when the channel is full |
| Coordinator.QueueCoordinator.TryFillDownloadSlots | crates/bergamot-queue/src/coordinator.rs:471-563 | the whole state afterwards is the old one with the sent articles dispatched one after another, each selected in the state its predecessors left; it stops only when paused, full, without server, article or room |
| Dispatch.FillsUnique | crates/bergamot-queue/src/coordinator.rs:471-563 | the state determines what a refill sends |
| DispatchLaws.RefillGoesOn | crates/bergamot-queue/src/coordinator.rs:471-563 | a refill goes on exactly while there are fewer flights than connections, a server is free, the channel has room and something can be selected |
| DispatchLaws.LaunchRecords | crates/bergamot-queue/src/coordinator.rs:507-546 | one dispatch marks the article running, and flight, assignment and the slot of the idlest server agree on its size and server |
| Dispatch.HandledBoxed | crates/bergamot/src/download.rs:81-160 | every event but shutdown keeps the assignments on the channel in flight, each once, because a worker takes one off before it reports on it |
| Dispatch.RoomSuffices | crates/bergamot-queue/src/coordinator.rs:486-554 | with room for as many assignments as there are connections, no refill finds the channel full |
| Coordinator.QueueCoordinator.HandleDownloadComplete | crates/bergamot-queue/src/coordinator.rs:926-1059 | exactly the reported outcome is booked, whatever is reported; a report of an article in flight from its server keeps all views in step |
| DispatchLaws.BlockedPauses | crates/bergamot-queue/src/coordinator.rs:1037-1051 | a report pauses the coordinator if and only if the article was blocked and is still wanted |
| DispatchLaws.BlockedStops | crates/bergamot-queue/src/coordinator.rs:1037-1051 | the refill after a blocked report sends nothing |
| DispatchLaws.BlockedCanBeSentAgain | crates/bergamot-queue/src/coordinator.rs:1037-1051 | the blocked article is in flight no more and undefined again |
| DispatchLaws.NothingSentWhilePaused | crates/bergamot-queue/src/coordinator.rs:445-484 | over any run without a resume a paused coordinator stays paused and sends nothing |
| DispatchLaws.LandingCounts | crates/bergamot-queue/src/coordinator.rs:926-960 | a landing is counted for the server its article was assigned to, as arrived with its bytes or as failed, and no other slot changes |
| Coordinator.QueueCoordinator.ReleaseSlot | crates/bergamot-queue/src/coordinator.rs:942-960 | the slot of the server that is named, or else assigned, gives up the size of the landed article |
| Coordinator.QueueCoordinator.Judge | crates/bergamot-queue/src/coordinator.rs:1055-1058 | health first, then the file, then the NZB |
| CommandLaws.LateReport | crates/bergamot-queue/src/coordinator.rs:962-990 | a report about an NZB that is not queued or an article that is finished or failed changes nothing |
| CommandLaws.StrayReport | crates/bergamot-queue/src/coordinator.rs:1000-1036 | a report about an article that does not exist is counted with no bytes and settles no article |
| Coordinator.QueueCoordinator.CheckHealthFailure | crates/bergamot-queue/src/coordinator.rs:1164-1196 | a hopeless NZB moves to the history |
| Coordinator.QueueCoordinator.CheckFileCompletion | crates/bergamot-queue/src/coordinator.rs:1061-1077 | a file with nothing open is marked complete |
| Coordinator.QueueCoordinator.CheckNzbCompletion | crates/bergamot-queue/src/coordinator.rs:1079-1148 | an NZB with every file complete leaves once, to post-processing or to the history |
| Coordinator.QueueCoordinator.MoveNzb | crates/bergamot-queue/src/coordinator.rs:1331-1361 | success permutes the queue; an unknown anchor loses the entry; an unknown id changes nothing |
| Commands.MoveLands | crates/bergamot-queue/src/coordinator.rs:1339-1358 | where a successful move leaves the entry: at an end, so many places away, or next to its anchor |
| Commands.BadAnchorLoses | crates/bergamot-queue/src/coordinator.rs:1331-1361 | of two NZBs the moved one is lost when its anchor is itself or missing |
| Commands.ParameterSet | crates/bergamot-queue/src/coordinator.rs:1312-1325 | a parameter that was set is found with its value, and every other one as before |
| Coordinator.QueueCoordinator.RemoveNzb | crates/bergamot-queue/src/coordinator.rs:755-763 | removes the entry with the id, or reports that there is none |
| Coordinator.QueueCoordinator.AddNzb | crates/bergamot-queue/src/coordinator.rs:1707-1921 | a new NZB gets the next id and balanced accounts; a duplicate spends the id and adds nothing |
| CommandLaws.Adds | crates/bergamot-queue/src/coordinator.rs:1707-1921 | adding spends an id; unless the key is used by a queued NZB, or by one in the history and duplicates are not forced, the new NZB is first or last as asked, with nothing downloaded and the files as parsed |
| CommandLaws.SharesAdd | crates/bergamot-queue/src/coordinator.rs:1777-1838 | the par2 share of the parsed files is the sum over those the parser takes for par2 |
| Commands.DuplicateOf | crates/bergamot-queue/src/coordinator.rs:1198-1221 | a key collides with any queued NZB, and with a finished one unless forced |
| Coordinator.QueueCoordinator.HistoryReturn | crates/bergamot-queue/src/coordinator.rs:1579-1595 | the entry enters the queue as it was, under a new id |
| CommandLaws.ReturnBrings | crates/bergamot-queue/src/coordinator.rs:1579-1595 | the entry leaves the history and is last in the queue under the next id, unpaused and otherwise as it was |
| Coordinator.QueueCoordinator.HistoryProcess | crates/bergamot-queue/src/coordinator.rs:1597-1636 | the entry enters the queue complete and completes at once |
| CommandLaws.ProcessCompletes | crates/bergamot-queue/src/coordinator.rs:1597-1636 | a processed entry counts as completed at once under a new id, with every file marked, and waits in post-processing or goes back to the history |
| Coordinator.QueueCoordinator.HistoryRedownload | crates/bergamot-queue/src/coordinator.rs:1638-1680 | the entry enters the queue with nothing downloaded |
| CommandLaws.RedownloadBrings | crates/bergamot-queue/src/coordinator.rs:1638-1680 | the entry leaves the history and is last in the queue under the next id, every article undefined, every file unpaused and unmarked, its counters those of nothing downloaded |
| Coordinator.QueueCoordinator.HistoryDelete | crates/bergamot-queue/src/coordinator.rs:1697-1705 | only the entry with the id goes |
| CommandLaws.Forgets | crates/bergamot-queue/src/coordinator.rs:1697-1705 | the history is left with exactly the other entries, in their order |
| Coordinator.QueueCoordinator.FinishPostProcessing | crates/bergamot-queue/src/coordinator.rs:2008-2033 | the NZB moves from the queue to the history without post_info |
| CommandLaws.PostProcessingEnds | crates/bergamot-queue/src/coordinator.rs:2008-2033 | the NZB leaves the queue and is last in the history, without post_info and otherwise as it was |
| Coordinator.QueueCoordinator.ResumeAll | crates/bergamot-queue/src/coordinator.rs:793-799 | resumes the coordinator and every NZB |
| DispatchLaws.SwitchesPause | crates/bergamot-queue/src/coordinator.rs:789-799 | pausing the coordinator changes nothing but its flag; resuming clears that and the flag of every NZB and changes nothing else |
| DispatchLaws.StrategySet | crates/bergamot-queue/src/coordinator.rs:911-913 | setting the strategy changes nothing else |
| DispatchLaws.ShutdownStops | crates/bergamot-queue/src/coordinator.rs:918-922 | after a shutdown nothing is in flight, nothing is sent, and queue and history are as they were |
| Coordinator.QueueCoordinator.UnpauseParFiles | crates/bergamot-queue/src/coordinator.rs:1223-1232 | resumes exactly the paused par files of one NZB |
| CommandLaws.ParFilesResume | crates/bergamot-queue/src/coordinator.rs:1223-1232 | no par2 file of the NZB is paused any more, and nothing else changes |
| Coordinator.QueueCoordinator.ApplyEdit | crates/bergamot-queue/src/coordinator.rs:1234-1329 | one NZB after another is edited in its place, flags or labels, until a move fails; labels are never looked at by accounts, ids or exits |
| CommandLaws.EditsEach | crates/bergamot-queue/src/coordinator.rs:1243-1329 | an edit that neither moves nor deletes changes what it says of exactly the NZBs it names, each in its place |
| CommandLaws.DeletesEach | crates/bergamot-queue/src/coordinator.rs:1259-1264 | deleting leaves exactly the NZBs that are not named, in their order |
| CommandLaws.CommandsAreEdits | crates/bergamot-queue/src/coordinator.rs:755-785 | pausing, resuming, removing and moving one NZB are the edits of it alone |
| CommandLaws.PauseHolds | crates/bergamot-queue/src/coordinator.rs:764-775 | nothing of a paused NZB is ready unless it is forced; of a resumed one everything undefined is whose file is not paused |
| CommandLaws.PostProcessingHolds | crates/bergamot-queue/src/coordinator.rs:1967-1998 | nothing of an NZB in post-processing is ready |
| Commands.NewNzbStarts | crates/bergamot-queue/src/coordinator.rs:1777-1838 | a new NZB has exact completion marks, and can start if and only if it has files and each has a segment |
| Commands.MovesPermute | crates/bergamot-queue/src/coordinator.rs:1236-1241 | any number of successful moves permutes the queue |
| Coordinator.QueueCoordinator.PauseNzb | crates/bergamot-queue/src/coordinator.rs:764-775 | only the flag of the one NZB changes |
| Coordinator.QueueCoordinator.PauseFile | crates/bergamot-queue/src/coordinator.rs:779-788 | only the flag of the one file changes |
| CommandLaws.FilePauses | crates/bergamot-queue/src/coordinator.rs:779-788 | pausing or resuming a file changes its flag and nothing else; without such a file nothing changes |
| Coordinator.QueueCoordinator.UpdatePostStage | crates/bergamot-queue/src/coordinator.rs:1967-1998 | only the presence of post_info changes |
| Ledger.RestoredSound | crates/bergamot-queue/src/coordinator.rs:1923-1931 | a restored queue and history start with sound books |
| Restore.RestoredFileRight | crates/bergamot/src/app.rs:127-206 | a restored file is balanced, and marked complete exactly when all its articles are done |
| Restore.RestoredFileIs | crates/bergamot/src/app.rs:127-206 | its articles are those that were parsed, finished where the saved bit is set and undefined elsewhere |
| Restore.RestoredNzbRight | crates/bergamot/src/app.rs:208-281 | a restored NZB is balanced with exact marks, and can start exactly when some article is not done |
| Restore.RestoredNzbIs | crates/bergamot/src/app.rs:208-281 | name, labels, priority, pause and health come back as saved, par2 share and post_info do not |
| Restore.RestoredEntryRight | crates/bergamot/src/app.rs:317-397 | a restored history entry has no files, conserves its size and has nothing left to download |
| Coordinator.QueueCoordinator.SeedState | crates/bergamot-queue/src/coordinator.rs:1923-1931 | a coordinator with a restored queue and history is valid |
| Coordinator.QueueCoordinator.HandleHistoryCommand | crates/bergamot-queue/src/coordinator.rs:745-875 | each command by which NZBs come and go has exactly its effect |
| Coordinator.QueueCoordinator.HandleQueueCommand | crates/bergamot-queue/src/coordinator.rs:755-901 | each command on the queue has exactly its effect |
| Coordinator.QueueCoordinator.HandleSwitch | crates/bergamot-queue/src/coordinator.rs:789-922 | each switch changes exactly what it says |
| Coordinator.QueueCoordinator.Shutdown | crates/bergamot-queue/src/coordinator.rs:918-922 | the flights are forgotten |
| Coordinator.QueueCoordinator.HandleCommand | crates/bergamot-queue/src/coordinator.rs:743-924 | every command has exactly its effect on the whole state, and what the application sends keeps the coordinator valid until shutdown |
| Coordinator.QueueCoordinator.Run | crates/bergamot-queue/src/coordinator.rs:445-469 | the state after any sequence of events is the one that the handled events and the refills between them lead to, each refill as it should be; the books are sound, so every NZB leaves at most once, until shutdown the views agree, and with room for every connection no refill finds the channel full |
| Dispatch.RunUnique | crates/bergamot-queue/src/coordinator.rs:445-469 | the start and the events determine the whole run |
| NntpMachine.ResponseCode | crates/bergamot-nntp/src/machine.rs:541-550 | a status line yields a code below 1000 or none |
| NntpMachine.ResponseCodeReads | crates/bergamot-nntp/src/machine.rs:541-550 | a line has a code if and only if it starts with its three digits, or with a plus sign and its last two |
| NntpMachine.SelectedIsLastAccepted | crates/bergamot-nntp/src/machine.rs:282-290 | the server's group is the last GROUP it accepted since TLS started |
| NntpMachine.Machine.constructor | crates/bergamot-nntp/src/machine.rs:80-92 | a new machine waits for the greeting it has asked for |
| NntpMachine.Machine.AfterGreeting | crates/bergamot-nntp/src/machine.rs:94-104 | a machine built after the greeting is idle and owed nothing |
| NntpMachine.Machine.RequestGroup | crates/bergamot-nntp/src/machine.rs:141-153 | a group that is selected already is joined without a command, and the server agrees |
| NntpMachine.Machine.RequestGroupBody | crates/bergamot-nntp/src/machine.rs:168-181 | pipelines GROUP and BODY; without the GROUP the server has that group selected |
| NntpMachine.Machine.RequestBody | crates/bergamot-nntp/src/machine.rs:184-190 | one command sent, one line asked for |
| NntpMachine.Machine.RequestAuth | crates/bergamot-nntp/src/machine.rs:131-138 | one command sent, one line asked for |
| NntpMachine.Machine.RequestStat | crates/bergamot-nntp/src/machine.rs:156-161 | one command sent, one line asked for |
| NntpMachine.Machine.RequestCompress | crates/bergamot-nntp/src/machine.rs:123-128 | one command sent, one line asked for |
| NntpMachine.Machine.RequestStartTls | crates/bergamot-nntp/src/machine.rs:115-120 | one command sent, one line asked for |
| NntpMachine.Machine.HandleStartTls | crates/bergamot-nntp/src/machine.rs:444-470 | after a 382 machine and server are in step if and only if no group was cached |
| NntpMachine.Machine.RequestQuit | crates/bergamot-nntp/src/machine.rs:193-198 | one command sent, one line asked for |
| NntpMachine.Machine.PollOutput | crates/bergamot-nntp/src/machine.rs:200-202 | takes the oldest output |
| NntpMachine.Machine.HandleAuthUser | crates/bergamot-nntp/src/machine.rs:230-262 | a 381 sends the password and stays in step |
| NntpMachine.Machine.HandleGroup | crates/bergamot-nntp/src/machine.rs:282-302 | only a 211 changes the cached group, to the group that was asked for |
| NntpMachine.Machine.HandlePipelinedGroup | crates/bergamot-nntp/src/machine.rs:327-354 | a 211 waits for the BODY reply with the group selected; anything else ends the session |
| NntpMachine.Machine.HandleBodyResponse | crates/bergamot-nntp/src/machine.rs:356-423 | a 222 reads the body; a 430 reports the article by its id as not found, a 480 that a login is needed, any other code itself, and the machine is idle and in step |
| NntpMachine.Machine.HandleCompress | crates/bergamot-nntp/src/machine.rs:488-508 | a garbled reply leaves the machine idle, yet in step |
| NntpMachine.GreetingAnswered | crates/bergamot-nntp/src/machine.rs:213-229 | a session is welcome with 200 or 201 only |
| NntpMachine.LoginAnswered | crates/bergamot-nntp/src/machine.rs:230-280 | login succeeds with 281 only, and a 381 asks for the password once |
| NntpMachine.GroupAnswered | crates/bergamot-nntp/src/machine.rs:282-354 | a 211 joins the group; any other code is reported, and ends the session when a BODY is on its way behind |
| NntpMachine.BodyAnswered | crates/bergamot-nntp/src/machine.rs:356-423 | a 222 is followed by the body, a 430 names the article, a 480 asks for a login, and the session goes on |
| NntpMachine.StatAnswered | crates/bergamot-nntp/src/machine.rs:304-325 | a 223 says that the article is there, a 430 that it is not |
| NntpMachine.UpgradeAnswered | crates/bergamot-nntp/src/machine.rs:444-508 | TLS starts with 382 only, compression with 206 only, without which the session goes on |
| NntpMachine.NoCodeAnswered | crates/bergamot-nntp/src/machine.rs:213-513 | a line without a code ends the session, unless compression was asked for |
| NntpMachine.Machine.HandleResponse | crates/bergamot-nntp/src/machine.rs:213-513 | the next state and outputs for every state and code; machine and server stay in step if and only if TLS does not start with a group cached |
| NntpMachine.Machine.HandleInput | crates/bergamot-nntp/src/machine.rs:204-528 | never out of step: owed lines match the state, none is asked for that is not owed, the cached group is the server's |
| BodyText.JoinLines | crates/bergamot-nntp-stub/src/lib.rs:384-384 | splitting at line feeds and joining again is the identity |
| BodyText.StripJoin | crates/bergamot-nntp-stub/src/lib.rs:385-385 | removing carriage returns line by line removes them from the whole |
| BodyText.StuffedLine | crates/bergamot-nntp/src/machine.rs:425-442 | unstuffing undoes stuffing, and a stuffed line is never the terminator |
| BodyText.UnstuffedLine | crates/bergamot-nntp/src/machine.rs:433-442 | only of two dots at the start one goes |
| BodyText.TrimCrlf | crates/bergamot-nntp/src/machine.rs:556-565 | drops one line feed and one carriage return from the end |
| BodyText.SendBody | crates/bergamot-nntp-stub/src/lib.rs:379-394 | writes the stuffed lines and the terminator |
| BodyText.WireFramed | crates/bergamot-nntp-stub/src/lib.rs:379-394 | what is sent is lines that end with carriage return and line feed, which occur nowhere else, the last one a single dot |
| BodyText.ReceiveFrames | crates/bergamot-nntp/src/protocol.rs:213-235 | reading back framed lines gives the lines |
| BodyText.RoundTrip | crates/bergamot-nntp-stub/src/lib.rs:379-394 | every body arrives without its carriage returns and nothing behind it is read; without carriage returns it arrives unchanged |
| NntpConnection.Connection.DrainBodyChunk | crates/bergamot-nntp/src/protocol.rs:512-532 | drains the chunk up to the next request for a line |
| NntpConnection.Connection.DrainSingleEvent | crates/bergamot-nntp/src/protocol.rs:494-510 | drains to the first event |
| NntpConnection.FirstEvent | crates/bergamot-nntp/src/protocol.rs:494-510 | draining skips requests for lines and gives the first event, unless that is a failure |
| NntpConnection.Connection.ReadLine | crates/bergamot-nntp/src/protocol.rs:213-235 | one line of the body unstuffed, its end, or a failed session when the bytes run out |
| NntpConnection.Connection.ReadBody | crates/bergamot-nntp/src/pool.rs:314-322 | the lines joined up to the terminator, with the machine idle and in step |
| NntpConnection.Connection.ReadResponseLine | crates/bergamot-nntp/src/protocol.rs:543-554 | the next line without its ending |
| NntpConnection.TrimEndStrips | crates/bergamot-nntp/src/protocol.rs:543-554 | exactly the line feeds and carriage returns at the end go |
| NntpConnection.Connection.AnswerFetch | crates/bergamot-nntp/src/protocol.rs:425-428 | a status line moves the fetch on as its code says |
| NntpConnection.Connection.DriveUntilBodyReady | crates/bergamot-nntp/src/protocol.rs:419-492 | the commands are written; ready if and only if the server accepted each command; then the body is next and the group is the one asked for |
| NntpConnection.Connection.Fetch | crates/bergamot-nntp/src/pool.rs:301-330 | a fetch writes GROUP only when needed, yields exactly what the replies encode and leaves the connection idle, in step, with the group selected; after a refusal or a broken stream it is exactly where the last reply left it |
| NntpConnection.FetchRoundTrip | crates/bergamot-nntp-stub/src/lib.rs:331-394 | with accepting replies the fetched article is the body without carriage returns, with or without GROUP |
| SpeedLimiter.Limiter.Reserve | crates/bergamot-nntp/src/speed.rs:142-159 | takes the bytes out of the refilled bucket and says how long the debt lasts; never above twice the rate |
| SpeedLimiter.Limiter.Run | crates/bergamot-nntp/src/speed.rs:42-61 | the delays of a sequence of requests and rate changes |
| SpeedLimiter.GrantedBound | crates/bergamot-nntp/src/speed.rs:42-61 | with changing rates no more is granted than was there and the highest of them earns |
| SpeedLimiter.ConstantRate | crates/bergamot-nntp/src/speed.rs:42-61 | with one rate, requests are served as by the bucket of that rate |
| SpeedLimiter.Unlimited | crates/bergamot-nntp/src/speed.rs:142-146 | without a rate every request goes at once and the bucket stays as it is |
| SpeedLimiter.LastRateCounts | crates/bergamot-nntp/src/speed.rs:50-58 | of rate changes between two requests only the last matters: what is in the bucket stays |
| SpeedLimiter.TokensBalance | crates/bergamot-nntp/src/speed.rs:142-159 | what was granted plus the tokens left never exceeds the first fill plus what was earned |
| SpeedLimiter.ReleaseFits | crates/bergamot-nntp/src/speed.rs:142-159 | at its release a request and all before it fit the budget |
| SpeedLimiter.RateBound | crates/bergamot-nntp/src/speed.rs:142-159 | by any time at most one second's worth plus the rate times the elapsed time has been released |
| SpeedLimiter.BoundIsReached | crates/bergamot-nntp/src/speed.rs:142-159 | the bound is reached, at the time when any number of further bytes has been earned |
| SpeedLimiter.IdleBurst | crates/bergamot-nntp/src/speed.rs:147-159 | after any idle time two seconds' worth goes at once, and the rest of a request exactly when the rate has earned it |
| SpeedLimiter.BucketGives | crates/bergamot-nntp/src/speed.rs:147-159 | a bucket that is not full gives what it has and what has been earned since, and the rest exactly when that has been earned |
| SpeedLimiter.BetweenIsDifference | crates/bergamot-nntp/src/speed.rs:142-159 | what a window releases is what is released by its end less what is released by its start |
| SpeedLimiter.WindowBound | crates/bergamot-nntp/src/speed.rs:142-159 | in any window at most the larger of two seconds' worth and the largest request, plus the rate times the length of the window, is released |
| SpeedLimiter.ReleaseMonotone | crates/bergamot-nntp/src/speed.rs:142-159 | a later request is never released before an earlier one |
| ArticleLog.MarkedDone | crates/bergamot-diskstate/src/lib.rs:417-433 | marking sets the bit of its index and no other |
| ArticleLog.MarkedCount | crates/bergamot-diskstate/src/lib.rs:425-437 | marking counts once |
| ArticleLog.MarkedWeight | crates/bergamot-diskstate/src/lib.rs:425-433 | the bit of an index has the weight of its remainder by eight in the byte of its quotient |
| ArticleLog.ReplayConsistent | crates/bergamot-diskstate/src/lib.rs:103-112 | after any replay the bits are exactly the indices with a checksum, and their count |
| ArticleLog.RemainingExact | crates/bergamot-diskstate/src/lib.rs:435-441 | the remaining count is the number of undone articles exactly when no index beyond the total was marked |
| ArticleLog.ReplayIdempotent | crates/bergamot-diskstate/src/lib.rs:103-112 | replaying a log twice is replaying it once |
| ArticleLog.LittleEndianRoundTrip | crates/bergamot-diskstate/src/lib.rs:88-90 | a 32-bit number survives its little-endian bytes |
| ArticleLog.TornAppend | crates/bergamot-diskstate/src/lib.rs:81-112 | an append cut short anywhere reads back as a prefix of its records |
| ArticleLog.AppendReadsBack | crates/bergamot-diskstate/src/lib.rs:81-112 | appends read back for all records if and only if the log before them is not torn |
| ArticleLog.CrashInAppend | crates/bergamot-diskstate/src/lib.rs:81-115 | a crash in an append loses only the last records appended |
| ArticleLog.CrashInCompaction | crates/bergamot-diskstate/src/lib.rs:117-125 | a crash anywhere in compacting the loaded state changes nothing that is loaded |
| ArticleLog.CompactionEmptiesLog | crates/bergamot-diskstate/src/lib.rs:117-125 | after a finished compaction the log is empty, and what is appended then is replayed on the snapshot alone |
| ArticleLog.ArticleState.constructor | crates/bergamot-diskstate/src/lib.rs:407-415 | a new state has nothing done |
| ArticleLog.FreshFits | crates/bergamot-diskstate/src/lib.rs:407-415 | a new bitset has room for every article and no byte to spare |
| ArticleLog.ArticleState.IsArticleDone | crates/bergamot-diskstate/src/lib.rs:417-423 | tests the bit, false beyond the end |
| ArticleLog.ArticleState.MarkArticleDone | crates/bergamot-diskstate/src/lib.rs:425-433 | marks one index, growing the bitset when needed |
| ArticleLog.ArticleState.CompletedCount | crates/bergamot-diskstate/src/lib.rs:435-437 | the population count is the number of articles done |
| ArticleLog.AppendLog | crates/bergamot-diskstate/src/lib.rs:81-93 | appends the records as eight bytes each |
| ArticleLog.LoadFileState | crates/bergamot-diskstate/src/lib.rs:95-115 | loads the snapshot and replays the whole records |
| ServerVolume.SlotsDiffer | crates/bergamot-scheduler/src/lib.rs:736-739 | two units of one window have different slots |
| ServerVolume.AdvancedHolds | crates/bergamot-scheduler/src/lib.rs:731-768 | time passing keeps each unit of the window in its slot, over any number of wrap-arounds |
| ServerVolume.RingAdd | crates/bergamot-scheduler/src/lib.rs:773-777 | recording adds to the slot of the current unit only |
| ServerVolume.Advance | crates/bergamot-scheduler/src/lib.rs:733-740 | clears the slots of the units entered since, or all of them |
| ServerVolume.Volume.constructor | crates/bergamot-scheduler/src/lib.rs:701-717 | a new volume is empty |
| ServerVolume.Volume.AdvanceTo | crates/bergamot-scheduler/src/lib.rs:720-771 | each of the last 60 seconds, 60 minutes and 24 hours keeps exactly its bytes while the clock does not run backwards |
| ServerVolume.Volume.Record | crates/bergamot-scheduler/src/lib.rs:773-780 | and so it does when bytes are recorded |
| ServerVolume.Volume.RecordSuccess | crates/bergamot-scheduler/src/lib.rs:782-784 | one more article arrived, and days still add up |
| ServerVolume.Volume.RecordFailure | crates/bergamot-scheduler/src/lib.rs:786-788 | one more article failed, and days still add up |
| ServerVolume.Volume.RollDay | crates/bergamot-scheduler/src/lib.rs:862-884 | days and months each still add up to everything recorded, bytes and articles |
| ServerVolume.StatsTracker.RollDay | crates/bergamot-scheduler/src/lib.rs:860-886 | the day of every server is closed, each exactly once, with the same date |
| ServerVolume.QuotaMonth | crates/bergamot-scheduler/src/lib.rs:874-883 | a quota month that starts up to the 28th ends on its day alone; a later one with every calendar month, and on its day as well |
| ServerVolume.QuotaEndsTwice | crates/bergamot-scheduler/src/lib.rs:874-883 | one that starts on the 31st ends on two days in a row |
| ArticleCache.LargestExists | crates/bergamot-yenc/src/cache.rs:58-66 | a cache that is not empty has a largest file |
| ArticleCache.EvictionSuffices | crates/bergamot-yenc/src/cache.rs:25-35 | dropping one largest file makes up for the segment just added |
| ArticleCache.WrittenAsStored | crates/bergamot-yenc/src/cache.rs:25-52 | the segments of a file are written in the order they came, each at its place counted from one, and no other file is touched |
| ArticleCache.ArticleCache.Store | crates/bergamot-yenc/src/cache.rs:25-35 | the size is exact and within the limit after every store, with at most one file dropped |
| ArticleCache.ArticleCache.EvictLargest | crates/bergamot-yenc/src/cache.rs:58-74 | one largest file goes and the size is recomputed exactly |
| ArticleCache.ArticleCache.FlushFile | crates/bergamot-yenc/src/cache.rs:37-52 | one file is forgotten and written in order up to the first write that fails, if any; the size stays exact if and only if no bytes were left to write |
| UniqueNames.DecimalInjective | crates/bergamot-nzb/src/parser.rs:352-352 | different suffixes are written differently |
| UniqueNames.DecimalValue | crates/bergamot-nzb/src/parser.rs:352-352 | a suffix is written in decimal |
| UniqueNames.FreeSuffix | crates/bergamot-nzb/src/parser.rs:350-360 | the first suffix from the start that gives an unused name; the search ends |
| UniqueNames.NameFile | crates/bergamot-nzb/src/parser.rs:336-361 | a taken name gets an underscore and the first number from two on that gives a free one, any other stays |
| UniqueNames.EnsureUniqueFilenames | crates/bergamot-nzb/src/parser.rs:331-362 | all nonempty names are pairwise distinct, and a name changes only if an earlier file has it, to the first number from two on that is free; files without a name stay so |

## Left out

- File, network and asynchronous plumbing: TLS, DEFLATE, tokio channels other than the bounded assignment channel, semaphores, timeouts. An absent source file that the code would unwrap is a failed read here, and a completion notice that finds its channel full is not lost.
- Parallel row updates run one after another, and SIMD instructions are functions on 16 byte lanes; the aarch64 variant computes the same lanes and is not modelled separately.
- Floating point: tokens, throughput estimates and ratios are real numbers, and the critical health rounds exactly. The branch for a nonpositive weight is dead there.
- Integer widths: sizes, counters and ids are unbounded, so overflow of u32 and u64 counters is not modelled.
- Progress reporting, logging, status snapshots and the fields only they use; CRC values of articles in the queue.
- The par2 success and remaining sizes and the remaining file counts: redownloading does not reset them and nothing is decided by them. The file-name test may disagree with the parser, so the par2 share of an NZB is outside the conservation theorem.
- The assignment channel is never closed, and shutdown leaves the server slots as they are; after it the main loop ends.
- Coordinator.QueueCoordinator.AddNzb: reading and parsing the file is left out; its contents are a parameter.
- Coordinator.QueueCoordinator.UpdatePostStage: progress and labels are left out; only that post_info is present matters.
- Marking history entries, updating post-processing statuses and changing the coordinator's rate.
- Scheduler.ServerScheduler.SetBackoff: the coordinator never calls it, so its place in a run is not modelled.
- NntpMachine.Machine.HandleStartTls: that a greeting follows the TLS handshake is taken from the machine, and response texts are left out.
- NntpConnection.Connection.Fetch: bytes that are not UTF-8 in a status line, write errors and upgrades during a fetch are left out.
- SpeedLimiter.Limiter.Run: the blocking variant that empties the bucket after sleeping is left out.
- ArticleLog.LoadFileState: the snapshot format is taken to read back what was written.
- MD5 and CRC verification, packet parsing, XML parsing, feeds, configuration, RPC and post-processing, which are library-bound or give only easy claims.
