# SpaceShield receiver core: a Dafny model and its proofs

This project models the stateful algorithms of the SpaceShield receiver in `backend/src/satcom_core`
and of its ledger scripts in `scripts`, and proves what they promise over every input and every run.
Arithmetic is exact: integers (with 32-bit wrap-around written out where it matters), 64-bit words,
reals, and complex numbers as pairs of reals.

| area | files |
|---|---|
| concurrent rings | `LockFreeProtocol` and `SharedBusProtocol` are machines of atomic steps; `FusionRings` holds the two rings as sequential classes and their common reference |
| adaptive weights | `ComplexVectors`, `ConstrainedLms`, `LeakyNlms`, `FrostTracking`, `WeightHandover` |
| linear algebra | `GaussJordan`, `WellConditioned`, `PivotDominance`, `LsEqualizer`, `LeastSquares`, `CaponMapper`, `CaponSpectrum` |
| bit-level transforms | `PackedWords`, `CrossAmbiguity`, `BitStrings`, `PrefixCodes`, `Cordic`, `CordicTurns`, `StreamingFir` |
| distributed evidence | `HashChain`, `VoteConsensus` |
| control and queues | `FrontendSync`, `FlowControl`, `Debounce`, `LoopbackMonitor`, `PriorityFrames`; `Circular` is the index arithmetic the rings share |
| shared | `Basics` |

Code that updates state in place is a class or a method over arrays, with its loops, proved against
functions; the theorems are lemmas about those functions. Conventions: hashes are an unspecified
function and collision resistance is a named hypothesis; the clock and the network are sequences of
events; a Python exception is an outcome (`None`, `Failed`, `raised`).

## Where the code does not do what it says

Each of these is a theorem with its exact condition.

- The vote engine admits N >= 3f + 1 nodes but fixes the quorum at 2f + 1, so agreement holds for
  N = 3f + 1 alone (`AgreementExactly`).
- The recovery walk, from whatever start hash, refuses every ledger of two or more records that the
  compactor's audit accepts, because the two hash different texts (`RecoveryRejectsAuditedLedgers`);
  from its genesis token it refuses whatever the committer has written (`RecoveryRejectsEveryRun`).
- A run-length payload of more than 127 bytes is misread or cannot be framed (`PayloadRoundTrip`).
- A sequence gap at the continuity threshold turns a critical measurement into a warning
  (`CriticalIsMasked`); which configurations allow it is exact (`MaskingConfigurations`), and the
  default one does (`DefaultMasks`).
- A full telemetry bus looks empty to its consumers (`NoneMeansEmptyOrFull`, `FullBusLooksEmpty`).
- A consumer that sleeps through a lap and swaps on a drained bus returns an entry twice, on every
  ring (`LapReturnsAnEntryTwice`); that swap is the one step a consumer can take that breaks the
  order (`FairnessIsExact`, `SoundExactlyWhenFair`).
- A recovery burst lasts six strides, not the five its comment promises (`SixBursts`).
- The lock-free ring delivers exactly once if and only if no push meets a full ring (`ExactlyOnce`);
  on one it can deliver a torn record (`FullRingCanTear`).
- The default rotation magnitude overflows 32 bits at every phase (`FullScaleWraps`).
- The inverse CORDIC gain is not the rounded value its comment describes and makes every output 23
  parts in a million too long (`GainConstantIsOff`, `ResponseIsNearlyUnit`). The third arctangent
  entry is not its rounded value either, but does not hurt convergence (`TableConverges`).
- `equalize_stride` is said to minimise the error. Its matrix is the right one if and only if the
  edges of the stride agree (`ToeplitzExactlyWhenEdgesAgree`), and then it does
  (`AgreeingEdgesGiveTheLeast`); one sample at the edge can make it worse than no filter
  (`EdgeSampleRuinsTheError`).
- The equalizer's pivot guard ruins the inverse whenever it is taken (`InvertsUnlessGuarded`). Which
  pivots are tiny is a function of the matrix; dominant matrices have none
  (`DominantNeedsNoGuard`), and strides that take the guard exist at every amplitude
  (`FlatStrideTakesGuard`). The angle mapper's guard can never be taken at its loading
  (`GuardNeedsTinyLoading`).
- Missing code chips are padded with zeros, which the packed correlator counts as -1
  (`PaddingSubtractsTheTail`); harmless exactly when the code is as long as documented
  (`DocumentedLengthIsExact`).

## Model

| member | source | states |
|---|---|---|
| LockFreeProtocol.ExactlyOnce | backend/src/satcom_core/lockfree_fusion_ring_buffer.py:91-113 | Over every interleaving of producer and consumer steps, delivery is exactly-once (the records handed out are the first ones pushed, in ticket order, each whole and finished, and nothing is dropped) if and only if no push meets a full ring. |
| LockFreeProtocol.StepKeepsInv | backend/src/satcom_core/lockfree_fusion_ring_buffer.py:206-241 | Every atomic step (claim, capacity check, status, one word stored, READY, scan, one word copied, EMPTY, read_ptr) keeps the slot-ownership invariant. |
| LockFreeProtocol.RunKeepsInv | backend/src/satcom_core/lockfree_fusion_ring_buffer.py:188-275 | The invariant holds after any run, and the calls are the pushed records in ticket order. |
| LockFreeProtocol.ReadyMeansFinished | backend/src/satcom_core/lockfree_fusion_ring_buffer.py:94-96 | The consumer sees READY exactly when the ticket at its cursor is completely written. |
| LockFreeProtocol.StopsOnlyAtUnfinishedTicket | backend/src/satcom_core/lockfree_fusion_ring_buffer.py:86-113 | However producers interleave with a pop_batch(m): the batch never holds more than m or 128 records, none for m <= 0, and it ends exactly when it holds that many or the next ticket is unfinished; no finished record is left behind. |
| LockFreeProtocol.DropsCountSaturation | backend/src/satcom_core/lockfree_fusion_ring_buffer.py:210-215 | Over every run the drop counter stays put exactly when no push meets a full ring. |
| LockFreeProtocol.FullRingCanTear | backend/src/satcom_core/lockfree_fusion_ring_buffer.py:210-215 | What a full ring can do: a run on a one-slot ring that takes the overflow branch while the consumer copies delivers a record nobody pushed and skips another. |
| SharedBusProtocol.PopsAreExclusiveAndFifo | backend/src/satcom_core/ipc_shared_bus.py:331-352 | Over every fair interleaving of one producer and any number of consumers, laps included, ticket t is claimed by exactly one pop, claims follow write order without gaps, and each returned entry is the one published. |
| SharedBusProtocol.FairnessIsExact | backend/src/satcom_core/ipc_shared_bus.py:283-352 | Fairness is the exact condition, step by step: a step keeps the invariant if and only if it is fair (no write into an unread or still-copied slot, no successful swap on a drained ring). |
| SharedBusProtocol.SoundExactlyWhenFair | backend/src/satcom_core/ipc_shared_bus.py:331-352 | Over whole runs of a fair producer, claims stay exclusive, in order and of published entries throughout exactly when no swap succeeds on a drained ring. |
| SharedBusProtocol.StepKeepsInv | backend/src/satcom_core/ipc_shared_bus.py:283-352 | Every fair atomic step of write_telemetry and pop_telemetry keeps the invariant that ties the wrapped indices to the unbounded histories. |
| SharedBusProtocol.SwapClaimsNextTicket | backend/src/satcom_core/ipc_shared_bus.py:259-272 | A swap within one lap of its read is always fair, and if it succeeds it claims the next unclaimed, published ticket. |
| SharedBusProtocol.NoneMeansEmptyOrFull | backend/src/satcom_core/ipc_shared_bus.py:341-346 | With a fresh read index, None is returned exactly when nothing or everything in the ring is unread. |
| SharedBusProtocol.FullBusLooksEmpty | backend/src/satcom_core/ipc_shared_bus.py:341-346 | On every ring a fair run from an initial state fills the ring and a pop then returns None with everything unread. |
| SharedBusProtocol.OnlyALapClaimsTheUnwritten | backend/src/satcom_core/ipc_shared_bus.py:348-352 | A swap is unfair exactly when it succeeds on a drained ring; then the read index went round at least once since it was read, and the claim is of an entry nobody wrote. |
| SharedBusProtocol.LapReturnsAnEntryTwice | backend/src/satcom_core/ipc_shared_bus.py:341-352 | Such a run exists on every ring of two or more slots: a fair run from an initial state, then the one unfair swap, ends with two pops having returned the same first entry, the second under a ticket nobody wrote. |
| LockedRing.FusionRingBuffer.Push | backend/src/satcom_core/fusion_ring_buffer.py:46-68 | The in-place push refines the drop-oldest log: stored, oldest dropped and counted exactly on overflow. |
| LockedRing.FusionRingBuffer.PopBatch | backend/src/satcom_core/fusion_ring_buffer.py:224-262 | The batch is the front of the queue, as long as the least of the request (none if negative), 128 and what is queued; the rest stays, and the drop counter is returned. |
| SequentialLockFreeRing.LockFreeFusionRingBuffer.Push | backend/src/satcom_core/lockfree_fusion_ring_buffer.py:206-241 | Called sequentially, push with status flags refines the same log and returns its ticket. |
| SequentialLockFreeRing.LockFreeFusionRingBuffer.PopBatch | backend/src/satcom_core/lockfree_fusion_ring_buffer.py:248-275 | Called sequentially, pop_batch with status flags takes the same front of the queue: the least of the request, 128 and what is queued. |
| SequentialLockFreeRing.LockFreeFusionRingBuffer.ReadSlots | backend/src/satcom_core/lockfree_fusion_ring_buffer.py:86-113 | The reader takes consecutive READY slots up to its count, stops short only at the end of the queue, and sets exactly those slots back to EMPTY. |
| RingEquivalence.RunBoth | backend/src/satcom_core/lockfree_fusion_ring_buffer.py:188-290 | Over every sequence of pushes and pops both rings return the same records and drop counts, those of the reference log. |
| DropOldestLog.RunAccounts | backend/src/satcom_core/fusion_ring_buffer.py:63-68 | Over every run: pushes = popped + dropped + queued, at most capacity queued, and the records handed out sit at strictly increasing positions of the push history. |
| DropOldestLog.NothingLost | backend/src/satcom_core/fusion_ring_buffer.py:63-68 | A run that drops nothing loses nothing: what was handed out followed by what is queued is the push history. |
| DropOldestLog.OverflowKeepsTheLatest | backend/src/satcom_core/fusion_ring_buffer.py:63-68 | A push drops exactly when the queue is full, and then the queue is the last `capacity` records pushed. |
| LeakyNlms.LeakyWeightsStayBounded | backend/src/satcom_core/leaky_nlms_tracker.py:29-69 | For runs of any length and any samples, with 0 <= alpha < 1, epsilon > 0, 0 <= mu0 <= 2 alpha: unit gain is kept, and the free part of the weights never exceeds the larger of its initial norm and mu0 / (4 (1 - alpha)). |
| LeakyNlms.StepKeepsBound | backend/src/satcom_core/leaky_nlms_tracker.py:50-69 | One step keeps the free part within any bound that admits mu0 / (4 (1 - alpha)). |
| LeakyNlms.TrackInPlace | backend/src/satcom_core/leaky_nlms_tracker.py:29-69 | The in-place loop leaves the specified weights and records the output power of every sample. |
| LeakyNlms.StepMixesOutput | backend/src/satcom_core/leaky_nlms_tracker.py:50-69 | From unit gain, a step turns the output y for its snapshot into (alpha - mu0 norm(P x)^2 / (norm(x)^2 + epsilon)) y + (1 - alpha) a^H x / 4. |
| LeakyNlms.RepeatedSnapshotReachesFloor | backend/src/satcom_core/leaky_nlms_tracker.py:29-69 | However often one snapshot is repeated, its output closes in on a fixed floor geometrically, by that factor, which is at most alpha in size; unit gain is kept. |
| LeakyNlms.OutputPowerFalls | backend/src/satcom_core/leaky_nlms_tracker.py:50-69 | A step does not raise the output power exactly when the power of the floor is at most that of the output plus the factor times that of their distance. |
| ConstrainedLms.OffsetStep | backend/src/satcom_core/leaky_nlms_tracker.py:54-69 | From unit gain, the part of the weights orthogonal to the target evolves as u' = alpha u - mu y* P x. |
| ConstrainedLms.StepRestoresUnitGain | backend/src/satcom_core/leaky_nlms_tracker.py:59-69 | From any weights one step ends with unit gain toward the target exactly when norm(a)^2 = 4 or the unprojected weights already had it. |
| ConstrainedLms.OutputSplits | backend/src/satcom_core/leaky_nlms_tracker.py:35-51 | The conjugate output is (P x)^H u + (a^H x)* / 4. |
| ConstrainedLms.OutputAfterStep | backend/src/satcom_core/leaky_nlms_tracker.py:50-69 | The output after a step for the same snapshot, for any leak and step size, in terms of the output before and that of a / 4. |
| FrostLms.TrackInPlace | backend/src/satcom_core/adaptive_null_tracker.py:27-65 | The in-place loop leaves the specified weights and records the output power of every sample. |
| FrostLms.TrackReachesUnitGain | backend/src/satcom_core/adaptive_null_tracker.py:53-65 | Any positive number of steps from any weights ends with unit gain; unit gain is never lost. |
| FrostLms.StepScalesOutput | backend/src/satcom_core/adaptive_null_tracker.py:34-65 | From unit gain, adapting to a snapshot multiplies its output by 1 - mu norm(P x)^2. |
| FrostLms.OutputPowerFalls | backend/src/satcom_core/adaptive_null_tracker.py:22-26 | Output power for the snapshot does not rise exactly when 0 <= mu norm(P x)^2 <= 2 or there was none. |
| FrostLms.SmallStepIsSafe | backend/src/satcom_core/adaptive_null_tracker.py:47-65 | 0 <= mu norm(x)^2 <= 2 is a safe step for every target. |
| WeightHandover.DoubleBufferedWeightHandover.ProcessStride | backend/src/satcom_core/double_buffered_weight_handover.py:97-130 | Both registers are adapted in place, the leakage averaged, and on a verdict the shadow becomes active and the standby target is staged; the new state equals the specification. |
| WeightHandover.RegistersServeTheirTargets | backend/src/satcom_core/double_buffered_weight_handover.py:43-64 | After every stride of every run the active register has unit gain toward the target it now serves and the shadow toward the standby target, swap or no swap. |
| WeightHandover.SwapsAreTenStridesApart | backend/src/satcom_core/double_buffered_weight_handover.py:74-80 | Two swaps are at least ten strides apart. |
| WeightHandover.SettledRegisterSwaps | backend/src/satcom_core/double_buffered_weight_handover.py:74-80 | From a fresh counter, a stride swaps exactly when it is the tenth or later, none of the nine before it swapped, and the adapted shadow passes less than the threshold of mean power. |
| WeightHandover.SwapPromotesTheShadow | backend/src/satcom_core/double_buffered_weight_handover.py:121-128 | A swap makes the just adapted shadow active, resets the counter and stages the shortest weights with unit gain toward the standby target. |
| WeightHandover.TwoTrackers | backend/src/satcom_core/double_buffered_weight_handover.py:26-64 | While nothing swaps and the targets stay, the registers are two independent trackers over the concatenated samples of their channels. |
| WeightHandover.CounterCountsStrides | backend/src/satcom_core/double_buffered_weight_handover.py:74-80 | After a swap the settling counter is at most the number of strides since. |
| PivotedInversion.Invert | backend/src/satcom_core/cyclic_ls_equalizer.py:11-70 | For any size, the in-place routine reports a guard exactly when some pivot of A, a function of A alone, is under 1e-12, and leaves the array the specified row operations give, guard or not. |
| Elimination.InvertsUnlessGuarded | backend/src/satcom_core/cyclic_ls_equalizer.py:27-70 | What the routine leaves is a left inverse of A exactly when no pivot of A is tiny, though swaps and eliminations touch only columns j >= i; and then applied to any p it solves A w = p. |
| Elimination.SingularTakesGuard | backend/src/satcom_core/cyclic_ls_equalizer.py:45-48 | A matrix with a nonzero kernel vector always takes the guard. |
| WellConditioned.GuardMeansNearlySingular | backend/src/satcom_core/cyclic_ls_equalizer.py:29-58 | If the guard is taken, some vector with an entry 1 has an image whose entries are all under 1e-12, whatever rows were swapped. |
| PivotDominance.DominantNeedsNoGuard | backend/src/satcom_core/cyclic_ls_equalizer.py:29-48 | If in every column the real part of the diagonal entry exceeds the sizes of the others by 1e-12, no pivot is tiny, so the routine inverts the matrix. |
| PivotDominance.BoundsAreInherited | backend/src/satcom_core/cyclic_ls_equalizer.py:50-58 | Eliminating one column of a dominant block keeps every entry of the trailing block within bounds that are dominant again, with the same margin. |
| PivotDominance.OutweighedLagsNeedNoGuard | backend/src/satcom_core/cyclic_ls_equalizer.py:142-149 | A stride whose loaded power exceeds twice the sizes of its four lagged correlations by 1e-12 never takes the guard. |
| PivotDominance.FlatStrideTakesGuard | backend/src/satcom_core/cyclic_ls_equalizer.py:142-149 | At every amplitude v some five-sample stride takes the guard: with v + 1e-6 / v before v, loading makes every entry of the matrix equal. |
| Elimination.TracksSubtract | backend/src/satcom_core/cyclic_ls_equalizer.py:54-65 | An elimination keeps the defect invariant (left block = right block * A, reversibly) and never removes a guard's defect. |
| Elimination.TracksGuard | backend/src/satcom_core/cyclic_ls_equalizer.py:45-48 | Taking the guard leaves a defect in its column that later steps keep. |
| PivotedInversion.FindPivot | backend/src/satcom_core/cyclic_ls_equalizer.py:29-36 | Partial pivoting finds the first row of largest modulus. |
| LinearSystems.IdentitySolves | backend/src/satcom_core/cyclic_ls_equalizer.py:60-70 | With the left block reduced to I, the right block applied to any p solves the original system. |
| LsEqualizer.Correlate | backend/src/satcom_core/cyclic_ls_equalizer.py:92-140 | The accumulators are the cross and auto correlations over the positions with a full delay line. |
| LsEqualizer.Assemble | backend/src/satcom_core/cyclic_ls_equalizer.py:142-147 | The assembled matrix is the loaded Hermitian Toeplitz matrix. |
| Elimination.LeftInverseSolves | backend/src/satcom_core/cyclic_ls_equalizer.py:149-158 | A left inverse applied to p is any solution of A w = p. |
| LsEqualizer.ComputeWeights | backend/src/satcom_core/cyclic_ls_equalizer.py:82-158 | The weights of a channel are the inverse of its loaded normal matrix, as the routine computes it, times the cross correlations; a guard is reported exactly when a pivot of that matrix is tiny; otherwise the weights are the one and only solution of the loaded normal equations. |
| LeastSquares.ErrorExpands | backend/src/satcom_core/cyclic_ls_equalizer.py:92-118 | For every filter w, the error energy is the energy of the reference, less twice the real part of w^H p, plus the energy of the output, where p is the vector of cross correlations and the output is w^H x. |
| LeastSquares.EchoExpands | backend/src/satcom_core/cyclic_ls_equalizer.py:119-131 | For every z and lag k, the energy of x plus z times x delayed by k exceeds the two energies by 2 Re (z* r_k), where r is the vector of auto correlations. |
| LeastSquares.LeastExactlyAtSolution | backend/src/satcom_core/cyclic_ls_equalizer.py:82-158 | A filter is the one of least error plus 1e-6 norm(w)^2 if and only if it solves the loaded Gram system with p on the right. |
| LeastSquares.ToeplitzExactlyWhenEdgesAgree | backend/src/satcom_core/cyclic_ls_equalizer.py:142-147 | The assembled matrix is that loaded Gram matrix if and only if the first four and last four samples of the stride have the same products (zeros, a cyclic extension, or a common phase). |
| LeastSquares.ExactMatrixNeedsNoGuard | backend/src/satcom_core/cyclic_ls_equalizer.py:45-48 | For every stride the loaded Gram matrix never takes the guard. |
| LeastSquares.AgreeingEdgesGiveTheLeast | backend/src/satcom_core/cyclic_ls_equalizer.py:82-158 | On strides whose edges agree no pivot is tiny and the weights are the only minimiser of the loaded error, for every reference. |
| LeastSquares.LeastExactlyWhenMatricesAgree | backend/src/satcom_core/cyclic_ls_equalizer.py:82-158 | On any stride without a tiny pivot the weights are the minimiser exactly when both matrices send them to the same vector. |
| LeastSquares.EdgeSampleRuinsTheError | backend/src/satcom_core/cyclic_ls_equalizer.py:92-158 | A single sample v at the edge, with a pulse as reference, gives the weight 1e6 v, and a loss worse than no filter at all exactly when v^2 exceeds the loading. |
| LeastSquares.ApplyFilter | backend/src/satcom_core/cyclic_ls_equalizer.py:162-210 | The filter pass leaves zeros in the first four places and then w^H x of every full delay line. |
| LeastSquares.EqualizeChannel | backend/src/satcom_core/cyclic_ls_equalizer.py:238-250 | One channel in place: weights and output as specified, the guard reported exactly, and the least loss whenever the edges agree. |
| PackedWords.PopcountCounts | backend/src/satcom_core/cross_ambiguity_engine.py:15-26 | popcount64 is the number of set bits, for every 64-bit word. |
| PackedWords.FunnelBit | backend/src/satcom_core/cross_ambiguity_engine.py:73-75 | The shift-and-or of two neighbouring words holds bit k + s of the pair at bit k. |
| PackedWords.MatchBit | backend/src/satcom_core/cross_ambiguity_engine.py:82-83 | A bit of the complemented exclusive-or says whether the words agree there. |
| PackedWords.PutBit | backend/src/satcom_core/cross_ambiguity_engine.py:57-58 | Or-ing a shifted bit in sets that bit and no other. |
| CrossAmbiguity.SetPrnCode | backend/src/satcom_core/cross_ambiguity_engine.py:156-167 | For codes of any length the packed words hold, bit by bit, where the padded code is positive. |
| CrossAmbiguity.PackWord | backend/src/satcom_core/cross_ambiguity_engine.py:38-61 | A word holds the signs of the 64 rotated samples it covers, zero counting as positive. |
| CrossAmbiguity.ShiftCode | backend/src/satcom_core/cross_ambiguity_engine.py:64-75 | For each of the 33 lags the replica holds code bit n + 32 - l at place n. |
| CrossAmbiguity.WordCorrelates | backend/src/satcom_core/cross_ambiguity_engine.py:81-89 | Twice the matches of a word less 64 is the sum of sign-by-chip products over its 64 places. |
| CrossAmbiguity.Kernel | backend/src/satcom_core/cross_ambiguity_engine.py:37-91 | Every cell of the surface is the square sum of the plain +1/-1 correlations of the real and imaginary signs with the code 32 - l chips ahead, over all 4096 samples. |
| CrossAmbiguity.MatchedCell | backend/src/satcom_core/cross_ambiguity_engine.py:37-91 | A code spun by the conjugate of a unit oscillator, with any amplitude in the first quadrant, gives 2 * 4096^2 in the bin of that oscillator at its own lag. |
| CrossAmbiguity.NoCellExceedsTheMatch | backend/src/satcom_core/cross_ambiguity_engine.py:81-91 | No cell of any signal and oscillator exceeds that value. |
| CrossAmbiguity.BinUndoesItsRotation | backend/src/satcom_core/cross_ambiguity_engine.py:44-55 | The cells of a bin for a signal turned by the conjugate of its oscillator are the cells of the signal itself without rotation. |
| CrossAmbiguity.SilenceShowsTheBalance | backend/src/satcom_core/cross_ambiguity_engine.py:53-55 | A silent input shows the surplus of positive over negative chips, squared, in both channels: zeros count as positive. |
| CrossAmbiguity.PaddingSubtractsTheTail | backend/src/satcom_core/cross_ambiguity_engine.py:156-167 | For +1/-1 codes of any length, each correlation is the zero-padded one less the sum of the samples over the padded places. |
| CrossAmbiguity.PaddingIsHarmless | backend/src/satcom_core/cross_ambiguity_engine.py:156-167 | At a given lag the surface equals the zero-padded one for all signals if and only if the code covers all 4096 samples there. |
| CrossAmbiguity.DocumentedLengthIsExact | backend/src/satcom_core/cross_ambiguity_engine.py:153-160 | Over all 33 lags that is so exactly for codes of at least the documented 4096 + 32 chips. |
| PrefixCodes.DecodingUndoesEncoding | backend/src/satcom_core/adaptive_huffman_table_manager.py:101-177 | For both tables and every byte sequence, decoding the encoded bits, whatever follows them, gives the sequence back without running short. |
| PrefixCodes.FrontOfCode | backend/src/satcom_core/adaptive_huffman_table_manager.py:108-175 | A codeword followed by anything is read back as its byte and exactly its own length. |
| PrefixCodes.CodeOf | backend/src/satcom_core/adaptive_huffman_table_manager.py:38-64 | The codebook, bit by bit, for both tables and every byte. |
| PrefixCodes.RoundTrip | backend/src/satcom_core/adaptive_huffman_table_manager.py:31-81 | The same through whole bytes, padding included. |
| PrefixCodes.Encode | backend/src/satcom_core/adaptive_huffman_table_manager.py:31-81 | The sliding-buffer encoder overruns dst exactly when the packed code stream is longer than it, and otherwise writes exactly that stream and touches nothing beyond it. |
| PrefixCodes.ReadCode | backend/src/satcom_core/adaptive_huffman_table_manager.py:108-175 | The nested shifts and masks read the codeword at the top of the buffer; failure is exactly a buffer that ends inside a codeword. |
| PrefixCodes.Decode | backend/src/satcom_core/adaptive_huffman_table_manager.py:101-177 | The sliding-buffer decoder computes the bit-string decoder on every input, truncated ones included. |
| PrefixCodes.PayloadFits | backend/src/satcom_core/adaptive_huffman_table_manager.py:189-190 | At most 127 symbols need at most 191 bytes of the 250-byte buffer. |
| PrefixCodes.HeaderRoundTrip | backend/src/satcom_core/adaptive_huffman_table_manager.py:219-227 | The packed header gives table and length back exactly for lengths up to 127. |
| PrefixCodes.HeaderMarksCriticalFrames | backend/src/satcom_core/adaptive_huffman_table_manager.py:204-221 | For payloads of at most 127 run-length bytes, the top bit of the header is set exactly for frames of threat level 3. |
| PrefixCodes.PayloadRoundTrip | backend/src/satcom_core/adaptive_huffman_table_manager.py:204-238 | decompress undoes compress (up to the run-length stage) exactly for run-length payloads of at most 127 bytes. |
| PrefixCodes.Compress | backend/src/satcom_core/adaptive_huffman_table_manager.py:204-221 | For every frame and run-length payload the in-place path returns the specified frame, raises (no threat byte, or a length the header byte cannot hold) or overruns its 250-byte buffer, each exactly where specified. |
| PrefixCodes.Decompress | backend/src/satcom_core/adaptive_huffman_table_manager.py:223-238 | The in-place path returns the specified decoding of every payload. |
| BitStrings.PackKeepsBits | backend/src/satcom_core/adaptive_huffman_table_manager.py:69-79 | Cutting a bit string into bytes adds only trailing zeros. |
| BitStrings.BitsSplit | backend/src/satcom_core/adaptive_huffman_table_manager.py:71-74 | v >> m and v & (2^m - 1) are the two parts of a bit string. |
| CaponInversion.Invert | backend/src/satcom_core/capon_aoa_mapper.py:42-67 | The unpivoted in-place reduction of x x^H + alpha I ends with the identity and with (I - x x^H / (alpha + norm(x)^2)) / alpha; the pivot guard is dead code for alpha >= 1e-12. |
| CaponInversion.PivotAtLeastAlpha | backend/src/satcom_core/capon_aoa_mapper.py:47-51 | Every pivot is real and at least alpha, for every snapshot. |
| CaponInversion.GuardNeedsTinyLoading | backend/src/satcom_core/capon_aoa_mapper.py:49-51 | Some snapshot drives a pivot under the guard exactly when alpha itself is under it. |
| CaponInversion.EliminateTemp | backend/src/satcom_core/capon_aoa_mapper.py:58-62 | The elimination of one entry turns the closed form before column i into the closed form after it. |
| CaponInversion.EliminateInverse | backend/src/satcom_core/capon_aoa_mapper.py:58-63 | The same for the matrix that becomes the inverse. |
| CaponSpectrum.InverseApplies | backend/src/satcom_core/capon_aoa_mapper.py:73-77 | The array the reduction leaves acts on any vector as the closed-form inverse. |
| CaponSpectrum.InverseUndoesCovariance | backend/src/satcom_core/capon_aoa_mapper.py:37-69 | inv (R v) = v for every vector v. |
| CaponSpectrum.CovarianceUndoesInverse | backend/src/satcom_core/capon_aoa_mapper.py:37-69 | R (inv v) = v for every vector v. |
| CaponSpectrum.ResponseIsReal | backend/src/satcom_core/capon_aoa_mapper.py:71-81 | a^H inv a is the real number (norm(a)^2 - abs(x^H a)^2 / (alpha + norm(x)^2)) / alpha. |
| CaponSpectrum.MinimumVariance | backend/src/satcom_core/capon_aoa_mapper.py:69-81 | Among all beams that pass direction a undistorted, R^-1 a rescaled has the least output variance, and that variance is the reciprocal of the response. |
| CaponSpectrum.SpectrumIsLeastVariance | backend/src/satcom_core/capon_aoa_mapper.py:69-81 | The published value is v / (1 + 1e-12 v), where v is the least output variance of any distortionless beam. |
| CaponSpectrum.RanksByMatch | backend/src/satcom_core/capon_aoa_mapper.py:69-81 | For steering vectors of one length the spectrum ranks angles exactly by abs(x^H a)^2. |
| CaponSpectrum.Sweep | backend/src/satcom_core/capon_aoa_mapper.py:69-81 | Every cell of the swept spectrum is 1 / (response + 1e-12). |
| CaponSpectrum.MapBin | backend/src/satcom_core/capon_aoa_mapper.py:32-81 | One flagged bin from snapshot to spectrum, with the default loading. |
| Cordic.TableConverges | backend/src/satcom_core/cordic_trig_accelerator.py:15-21 | Each table entry is at most the sum of the later ones plus one. |
| Cordic.RotationConverges | backend/src/satcom_core/cordic_trig_accelerator.py:100-126 | Every 32-bit phase ends the 32 iterations with abs(z) <= 1, whatever happens to x and y. |
| Cordic.RotationBound | backend/src/satcom_core/cordic_trig_accelerator.py:114-126 | After n iterations at most the unused tail of the table plus one is left of the angle. |
| Cordic.VectoringNarrows | backend/src/satcom_core/cordic_trig_accelerator.py:81-93 | While nothing wraps, x >= 0 never decreases and abs(y) <= x / 2^(n-1) + n - 1 after n iterations. |
| Cordic.VectoringConverges | backend/src/satcom_core/cordic_trig_accelerator.py:81-97 | The y thrown away after 32 iterations is at most 31 units. |
| Cordic.EnergyStep | backend/src/satcom_core/cordic_trig_accelerator.py:82-92 | An iteration of either mode multiplies x^2 + y^2 by at most 1 + 4^-j, up to a fixed rounding term. |
| Cordic.SafeInputsNeverWrap | backend/src/satcom_core/cordic_trig_accelerator.py:139-140 | With x^2 + y^2 <= (0.6 * 2^31)^2 no iteration wraps x or y, in either mode. |
| Cordic.SafeAmplitude | backend/src/satcom_core/cordic_trig_accelerator.py:139-140 | The documented amplitude limit suffices from any input: no wrap, and both convergence bounds. |
| Cordic.FullScaleWraps | backend/src/satcom_core/cordic_trig_accelerator.py:202-203 | The full-scale magnitude the class injects by default wraps by the second iteration, for every 32-bit phase. |
| Cordic.CompensationIsExact | backend/src/satcom_core/cordic_trig_accelerator.py:95-96 | Gain compensation neither wraps nor enlarges. |
| CordicTurns.AngleFollowsVector | backend/src/satcom_core/cordic_trig_accelerator.py:81-126 | In both modes, while nothing wraps, an iteration adds its table entry to z exactly when it turns the vector clockwise and subtracts it when it turns it counterclockwise, as read off the vectors. |
| CordicTurns.QuarterTurn | backend/src/satcom_core/cordic_trig_accelerator.py:68-78 | The quarter turn before the loop is a right angle of the same length, clockwise with z raised by a quarter circle or counterclockwise with z lowered by one, or nothing. |
| CordicTurns.AngleIsSwept | backend/src/satcom_core/cordic_trig_accelerator.py:81-126 | The angle that leaves the loop is the one that entered plus the table entries signed by the turns, modulo 2^32. |
| CordicTurns.LoopMultiplies | backend/src/satcom_core/cordic_trig_accelerator.py:81-126 | After n iterations the vector is the input times the product of 1 - i s 2^-j over the turns, within a rounding drift of at most 5 n units. |
| CordicTurns.ResponseIsNearlyUnit | backend/src/satcom_core/cordic_trig_accelerator.py:23-24 | The compensated product has square modulus between 1.00004547 and 1.00004548, for every input. |
| CordicTurns.GainConstantIsOff | backend/src/satcom_core/cordic_trig_accelerator.py:23-24 | That excess is the constant: 1304065748, the rounded value the comment describes, would give 1 within 1e-9. |
| CordicTurns.OutputIsTurnedInput | backend/src/satcom_core/cordic_trig_accelerator.py:54-131 | Unless x or y wraps, the output is the prerotated input times that nearly unit number: within 100 units a coordinate in rotation mode, and in vectoring mode x within 100 with the dropped y within 120 of zero; z has changed by the entries of those turns. |
| CordicTurns.ResolvedMagnitude | backend/src/satcom_core/cordic_trig_accelerator.py:81-97 | At safe amplitudes the resolved magnitude is that of the input, 23 parts in a million long, within 100 units and the dropped y. |
| Cordic.ProcessStride | backend/src/satcom_core/cordic_trig_accelerator.py:54-131 | The loop over a stride computes the specified 32-bit result for every sample and both modes. |
| StreamingFir.Equalize | backend/src/satcom_core/group_delay_equalizer.py:60-102 | The in-place ring pass turns every channel's stride into its direct convolution over history ++ stride and leaves the last N-1 pristine inputs as history, for strides of any length. |
| StreamingFir.EqualizeChannel | backend/src/satcom_core/group_delay_equalizer.py:60-102 | The same for one channel, other channels untouched. |
| StreamingFir.Accumulate | backend/src/satcom_core/group_delay_equalizer.py:74-87 | The wrapped taps of one sample are the direct convolution. |
| StreamingFir.StridesCompose | backend/src/satcom_core/group_delay_equalizer.py:63-102 | Processing A and then B gives the outputs and history of A ++ B. |
| StreamingFir.CuttingDoesNotMatter | backend/src/satcom_core/group_delay_equalizer.py:63-102 | However a stream is cut into strides, outputs and final history are those of the uncut stream. |
| StreamingFir.ImpulseGivesTaps | backend/src/satcom_core/group_delay_equalizer.py:74-87 | An impulse comes out as the taps in order, starting at its own place. |
| StreamingFir.OutputIsLinear | backend/src/satcom_core/group_delay_equalizer.py:74-87 | The pass is linear in history and stride together. |
| HashChain.VerifyChain | scripts/compact_worm_ledger.py:69-89 | The audit passes exactly the chained ledgers, returns their terminal hash, and otherwise names the first record at fault and its fault. |
| HashChain.SameTerminalSameHistory | scripts/compact_worm_ledger.py:39-44 | For an injective hash, of two audited ledgers with one terminal hash the shorter is the end of the longer. |
| HashChain.TerminalDeterminesLedger | scripts/compact_worm_ledger.py:39-44 | Audited ledgers of equal length agree exactly when their terminal hashes do. |
| HashChain.RunsStayChained | scripts/compact_worm_ledger.py:119-145 | After any run of appends and compactions, all archives followed by the active ledger audit as one chain. |
| HashChain.CommitsStay | scripts/compact_worm_ledger.py:95-145 | After any run of commits and compactions every committed text is in the history, in the order of the commits. |
| HashChain.WormLedger.Compact | scripts/compact_worm_ledger.py:95-145 | Compaction never aborts on a ledger it and the committer wrote, archives all of it, and continues the chain with one anchor. |
| HashChain.WormLedger.Append | scripts/secure_model_deployer.py:80-110 | A commit extends the whole history by one record that has the committed fields, is signed, and is chained to its terminal hash. |
| HashChain.EventGrows | scripts/secure_model_deployer.py:80-110 | Every event leaves the history alone or extends it by one chained record. |
| HashChain.VerifyLedgerChain | scripts/disaster_recovery_restore.py:51-79 | The in-place walk leaves the specified blocks (retrofitted up to a failure) and outcome. |
| HashChain.WalkSucceeds | scripts/disaster_recovery_restore.py:60-79 | The walk succeeds exactly when every block names, or adopts, the hash of the walked block before it. |
| HashChain.WalksCompose | scripts/disaster_recovery_restore.py:56-79 | Walking A ++ B is walking A and then B from A's terminal hash, failures included. |
| HashChain.SecondWalkChangesNothing | scripts/disaster_recovery_restore.py:68-71 | A second walk changes nothing and ends the same, from any start. |
| HashChain.RecoveryRejectsAuditedLedgers | scripts/disaster_recovery_restore.py:60-79 | Because recovery hashes blocks with their hash field and other separators, from any start hash or none it accepts a ledger the audit accepts exactly when that is empty or a single block that names, adopts or needs no predecessor. |
| HashChain.RecoveryRejectsEveryRun | scripts/disaster_recovery_restore.py:164-179 | Started from its genesis token, recovery accepts the active ledger of any run of commits and compactions exactly when that ledger is empty. |
| VoteConsensus.Engine.AwaitConsensus | backend/src/satcom_core/cluster_bft_consensus.py:89-133 | True exactly when 2f+1 distinct ids (the node, and in-range ids claiming the target hash) vote within the window, early exit or not; the ledger marks the ids counted. |
| VoteConsensus.Open | backend/src/satcom_core/cluster_bft_consensus.py:27-31 | The constructor accepts exactly N >= 3f + 1. |
| VoteConsensus.InVoters | backend/src/satcom_core/cluster_bft_consensus.py:116-124 | An id counts exactly when it is the node's own or claimed the target hash. |
| VoteConsensus.HonestSupport | backend/src/satcom_core/cluster_bft_consensus.py:31-31 | A confirmation has at least f + 1 voters outside any f faulty ids. |
| VoteConsensus.QuorumsMeet | backend/src/satcom_core/cluster_bft_consensus.py:27-31 | Two quorums out of 3f + 1 share an id outside any f. |
| VoteConsensus.AgreementExactly | backend/src/satcom_core/cluster_bft_consensus.py:27-31 | Among the cluster sizes the constructor admits, two nodes can never confirm different hashes in a round exactly when N = 3f + 1. |
| FrontendSync.SyncTracker.EvaluateStride | backend/src/satcom_core/hil_frontend_sync.py:117-162 | The in-place window shift, statistics, verdict and counters equal the specification. |
| FrontendSync.ConstantIsNominal | backend/src/satcom_core/hil_frontend_sync.py:63-79 | A window of one drift value is nominal when at most 10 frames are missing. |
| FrontendSync.ConstantWindow | backend/src/satcom_core/hil_frontend_sync.py:51-61 | A window of one value has zero variance. |
| FrontendSync.VerdictsExactly | backend/src/satcom_core/hil_frontend_sync.py:51-79 | For every window of two or more, exactly when each verdict is reached: packet loss or 50 ms across the window, else a jump, else a standard deviation at the warning level, stated by moments. |
| FrontendSync.VarianceByMoments | backend/src/satcom_core/hil_frontend_sync.py:51-61 | n^2 times the variance is n times the sum of squares less the square of the sum. |
| FrontendSync.WindowHoldsTheLatest | backend/src/satcom_core/hil_frontend_sync.py:42-50 | Over every run the window is what it started with followed by the newest drifts, refilled when the last sequence number is 0. |
| FrontendSync.RecoveriesAreReturns | backend/src/satcom_core/hil_frontend_sync.py:140-148 | The recovery counter is the number of returns from another verdict to nominal. |
| FrontendSync.DropsAccount | backend/src/satcom_core/hil_frontend_sync.py:36-40 | Over increasing positive sequence numbers, frames received plus frames counted as dropped make up the whole range. |
| FrontendSync.DroppedExactly | backend/src/satcom_core/hil_frontend_sync.py:34-40 | Dropped frames fill the gap after a positive sequence number and are none otherwise. |
| FlowControl.RunKeepsInv | backend/src/satcom_core/hil_flow_controller.py:33-62 | Over every run the rate stays within 0.80 and 1.00, and nominal continuation implies 1.00. |
| FlowControl.ActionFollowsVerdict | backend/src/satcom_core/hil_flow_controller.py:33-60 | Whatever came before: a slip without heavy loss holds; heavy loss, desync and a drift warning reduce; a nominal verdict bursts or continues. |
| FlowControl.RateFollowsActions | backend/src/satcom_core/hil_flow_controller.py:87-107 | k reducing strides in a row lower the rate by 0.05 each down to 0.80, k bursts raise it by 0.05 each up to 1.00, holding and continuing leave it. |
| FlowControl.SixBursts | backend/src/satcom_core/hil_flow_controller.py:46-57 | From a throttle to the next nominal stride without another throttle there are exactly six strides, all recovery bursts. |
| FlowControl.AlwaysRecovers | backend/src/satcom_core/hil_flow_controller.py:87-107 | After W + 6 frames of constant drift with consecutive numbers, from any reachable state: nominal continuation, rate 1.00, tracker nominal. |
| FlowControl.FlowController.ProcessStride | backend/src/satcom_core/hil_flow_controller.py:76-113 | A stride moves tracker, action, count and rate as specified and keeps the invariant. |
| Debounce.HysteresisFilter.FilterAction | backend/src/satcom_core/mitigation_hysteresis_filter.py:27-107 | The circular-history filter switches to b exactly when b is new and the last clamp(window, 1, history) raw actions are all b; the duration is the age of that switch. |
| Debounce.HysteresisFilter.IsConsecutive | backend/src/satcom_core/mitigation_hysteresis_filter.py:38-44 | The walk back through the ring decides that, also when the window exceeds the ring. |
| Debounce.SwitchesAreApart | backend/src/satcom_core/mitigation_hysteresis_filter.py:36-65 | A switch to b comes at least its window after the previous switch. |
| Debounce.FirstSwitchIsLate | backend/src/satcom_core/mitigation_hysteresis_filter.py:36-65 | The first switch comes at least its window after the start. |
| Debounce.RequestsAreGranted | backend/src/satcom_core/mitigation_hysteresis_filter.py:46-48 | Enough equal requests in a row always decide the output. |
| Debounce.SwitchesAfterItsWindow | backend/src/satcom_core/mitigation_hysteresis_filter.py:27-67 | The output switches to a new action exactly when the last up_window raw actions (down_window for the all-clear) were all that action; windows below one count as one and beyond the history as the whole of it. |
| Debounce.AgeCountsFromTheSwitch | backend/src/satcom_core/mitigation_hysteresis_filter.py:46-67 | The duration counts the strides since the last switch. |
| LoopbackMonitor.FirmwareLoopbackSync.EvaluateStride | backend/src/satcom_core/firmware_loopback_sync.py:235-336 | State, event, gap, counters and the summary over the last min(t, n) strides equal their specification in the log of all strides. |
| LoopbackMonitor.FirmwareLoopbackSync.Summarise | backend/src/satcom_core/firmware_loopback_sync.py:302-328 | The scan computes mean, largest and smallest values of the slots in use. |
| LoopbackMonitor.StatesExactly | backend/src/satcom_core/firmware_loopback_sync.py:244-269 | For every stride of every log, exactly when it is critical, a warning or nominal. |
| LoopbackMonitor.EventsExactly | backend/src/satcom_core/firmware_loopback_sync.py:263-287 | Which event a stride leaves, by precedence. |
| LoopbackMonitor.StreakReaches | backend/src/satcom_core/firmware_loopback_sync.py:278-283 | The clear counter has reached k exactly when the last k strides were nominal and past the warm-up. |
| LoopbackMonitor.CountersCount | backend/src/satcom_core/firmware_loopback_sync.py:263-277 | The counters are the numbers of strides with a broken gap, a critical latency, and a handover without one. |
| LoopbackMonitor.RecoveriesAreLongStreaks | backend/src/satcom_core/firmware_loopback_sync.py:278-287 | For recovery_clear_count >= 1 the recovery count is the number of post-warm-up nominal streaks that reached that length, each counted once. |
| LoopbackMonitor.CriticalIsMasked | backend/src/satcom_core/firmware_loopback_sync.py:258-269 | A critical measurement is not reported as critical exactly when continuity threshold <= gap < slip threshold. |
| LoopbackMonitor.MaskingConfigurations | backend/src/satcom_core/firmware_loopback_sync.py:258-269 | A configuration can hide a critical measurement exactly when its continuity threshold is below a positive slip threshold. |
| LoopbackMonitor.DefaultMasks | backend/src/satcom_core/firmware_loopback_sync.py:33-43 | The default configuration does: a stall right after one lost stride is reported as a warning. |
| LoopbackMonitor.LargestBounds | backend/src/satcom_core/firmware_loopback_sync.py:302-317 | The windowed maximum is the least bound of the window's values from zero up. |
| LoopbackMonitor.SmallestBounds | backend/src/satcom_core/firmware_loopback_sync.py:320-322 | The windowed minimum is the greatest bound of the window's values. |
| PriorityFrames.BinaryPriorityQueue.Push | backend/src/satcom_core/hardened_websocket_runtime.py:27-69 | A push appends, refuses, or evicts the oldest nominal (else the oldest) frame and counts the loss, and raises exactly for frames under five bytes or a critical frame with no room at all. |
| PriorityFrames.BinaryPriorityQueue.Pop | backend/src/satcom_core/hardened_websocket_runtime.py:71-74 | The oldest queued frame, or none. |
| PriorityFrames.RunKeepsInv | backend/src/satcom_core/hardened_websocket_runtime.py:27-74 | Over every run the queue is within capacity and in order of arrival, and every accepted frame is exactly one of popped, queued or lost. |
| PriorityFrames.Conservation | backend/src/satcom_core/hardened_websocket_runtime.py:27-74 | Pushes = popped + queued + drops + critical drops. |
| PriorityFrames.CriticalLossIsForced | backend/src/satcom_core/hardened_websocket_runtime.py:47-69 | A critical frame is lost only when all queued frames are critical and it is the oldest. |
| PriorityFrames.PushExactly | backend/src/satcom_core/hardened_websocket_runtime.py:43-69 | What a push gives up: nothing below capacity, itself if nominal, else the oldest nominal frame, else the oldest of all. |
| PriorityFrames.BurstsKeepTheLatest | backend/src/satcom_core/hardened_websocket_runtime.py:43-69 | A pop-free burst keeps exactly the last min(capacity, C) of its C critical frames, whatever nominal traffic is mixed in. |
| PriorityFrames.CriticalBytes | backend/src/satcom_core/hardened_websocket_runtime.py:32-41 | A frame is critical exactly when its threat word is the bytes 3, 0, 0, 0. |

## Left out

- Floating-point rounding, complex64 storage, fastmath and latency: all arithmetic is exact, the rate factor is an integer of hundredths, and the jitter standard deviation is kept as its variance and compared through squares.
- LockFreeProtocol.FullRingCanTear: says that a push on a full ring can tear a record, not when it does; the unsynchronised read_ptr and drop_counter updates of that branch are otherwise covered sequentially only.
- LockFreeProtocol.StepKeepsInv: the read-modify-write of read_ptr and of drop_counter is one step each, and a record is a list of words stored one at a time.
- SharedBusProtocol.SoundExactlyWhenFair: a producer that laps unread or still-copied slots, which the bus leaves to its callers, is excluded here; FairnessIsExact says what such a step breaks.
- LockedRing.FusionRingBuffer.Push: the eight parallel slot arrays are one array of records; the lock itself is not modelled.
- LoopbackMonitor.FirmwareLoopbackSync.EvaluateStride: the eight parallel history arrays are one array of records; metrics() and the report are not modelled.
- LeastSquares.EqualizeChannel: one channel; the loop over channels repeats it.
- CaponSpectrum.MapBin: one flagged bin; the loop over bins repeats it on separate pool rows, and the size check of map_anomalies is not modelled. The modulus of the response is taken where the response is proved real.
- CrossAmbiguity.Kernel: the oscillator table is an input (its cosines are not modelled), and the surface is not rounded to 32-bit floats.
- PrefixCodes.Decode: where the source would shift by a negative amount the result is the outcome `starved`; that dst holds the requested length is a precondition (decompress asks for at most 127 of its 250 bytes).
- PrefixCodes.Compress: the run-length coder is not part of this model; its output is an arbitrary byte sequence. What the unchecked code does after writing past its buffer is not modelled, only that it does (`Overrun`).
- CordicTurns.OutputIsTurnedInput: the angle of the turns is stated as the signed sum of the table entries; that entry j is the arctangent of 2^-j, which is not a rational number, is not proved.
- StreamingFir.Equalize: the least-squares design of the filter taps is not modelled.
- HashChain.VerifyChain: files are sequences of parsed records; JSON formats, blank and malformed lines, gzip, file renaming and the containment proof are not modelled.
- HashChain.RecoveryRejectsAuditedLedgers: assumes that the two serialisations never hash to the same value and that no record hashes to the all-zero string or the genesis token.
- VoteConsensus.AgreementExactly: assumes that a claim under the id of a correct node is that node's own; datagrams are not authenticated in the source.
- FlowControl.FlowController.ProcessStride: the buffer age read from the wall clock is not modelled.
- PriorityFrames.BinaryPriorityQueue.Push: the broadcast loop over clients and its totals, the event loop and its lock are not modelled.
- cluster_raft_consensus.py: its election promotes the node itself, so there is no agreement to prove.
- Estimators driven by trigonometry or eigenvalues (ephemeris, blind source separation, manifold alignment), threshold classifiers of two lines, the web and UI layers, signatures and model training.
