# Verification of the Axon trading stack's hard cores

A Dafny model of the parts of Axon whose correctness no finite set of examples settles, with
machine-checked proofs of what they promise. `dafny verify dfyconfig.toml` checks everything.

**Feature runtime.** A feature spec is a list of named columns, each a transform of input series or of
earlier columns. The batch path (`Spec.Compute`) builds a matrix from whole series; the streaming path
(`Streaming.FeatureStream`) keeps a bounded buffer, compacts it in place and re-evaluates every column
on each observation. Floating point is an arbitrary record of operations (`Float.Fpu`), so "the same
bits" is equality for every arithmetic. The central theorem is that every row `Push` returns is the
batch row of the whole history at that index, cell for cell, through any depth of column-to-column
bindings (`Streaming.FeatureStream.Push`, `Replay.CompareWithBatch`). It rests on causality and
shift-invariant finite lookback of every bounded transform (`Cells.CellsAgree`) and on an induction
along the binding graph (`Causality.StretchMatchesHistory`). Those hold of any formulas; what the formulas
are is said apart. Bindings read what they name, and renaming the outside series changes nothing
(`Renaming`). Over exact arithmetic (`ExactReals`) the windowed transforms are the sums, means and
deviations of their windows (`Statistics`) and the others what they are called (`Formulas`). The declared
reaches and the composed lookback are needed, not just enough (`Reach`, `Tightness`). The list of
log-dependent columns is checked against the logarithm itself (`Logarithms`). Beside it: NumPy-order
summation as a tree (`Numeric`), its depth and rounding error (`Accuracy`), and the necessity of refusing
exponential averages (`EmaHistory`).

**Spec identity.** The canonical JSON writer (`JsonWriter`), a reader by RFC 8259 (`Json`), and the
round trips between them (`JsonRoundTrip`, `SpecJson`): the bytes under the fingerprint name one recipe.
Which of a recipe's many texts those bytes are is pinned apart (`CanonicalForm`).

**Shared-memory protocols.** The SPSC ring (`RingProtocol`) and the beacon (`Beacon`) as step machines of
two processes with FIFO store buffers, on wrapping counters, under every interleaving. `RingBuffer` and
`Beacon.Page` are the same calls made by one process on an object.

**Orders and positions.** Average-cost positions (`Positions`), the tracker's effect on its state as
functions (`Tracker`), the object that keeps that state (`OrderTrackers`), what whole runs of replayed
and reordered events add up to (`TrackerRuns`), and what they do to one order and to exposure
(`TrackerOrders`), and what finishes an order and whose word its figures are (`TrackerEndings`).

**The gate.** The bounds on one instrument (`Risk`) and on the book (`Portfolio`), the cumulative batch
check over them and its de-risk-only mode (`Guard`), what the bounds buy over a batch (`GuardCaps`),
sessions of many such checks with fills and cancels between them (`GuardSessions`), the atomic in-flight
bitset (`InFlight`), and the expiring mark cache (`Marks`).

**Parity.** The cell-by-cell comparison of a recorded matrix with this build's (`Parity`).

Where the code and its comments disagree the model follows the code:

- `streaming.rs:404-405` calls a refusing transform unreachable after construction. It is reachable:
  `lookback_window` never reads `ddof`, so a stream can be built that every push fails on.
  `Replay.ServableButNotRunnable` gives the exact condition, `Replay.PushCanFailAfterConstruction` an
  instance, and `Push` says what then happens.
- `tracker.rs:554-559` says the fill and update channels give the same filled quantity in either order.
  They do exactly when the venue's figure does not exceed ours (`TrackerOrders.ChannelsCommuteExactly`,
  `TrackerOrders.ChannelsMayDisagree`).
- `inflight.rs:46-53` says the overflow slot can never under-report, and `inflight.rs:132-135` that a
  release without a claim is a no-op. Past the bound both hold on a run exactly when no release frees the
  slot from under another symbol (`InFlight.TruthfulExactly`); a release into an empty slot is harmless.
  `InFlight.StrangersReleaseAdmitsTwo` is a run on which they fail.
- `beacon.rs:88-90` says any mixture of beats is a state the publisher passed through. Each field is, and
  none is older than the count beside it, but fields of a snapshot are together such a state exactly when
  no two of them are torn: one loaded before some beat that moved it had stored it, the other after that
  beat or a later one had moved it (`Beacon.SnapshotIsAStateExactly`, for fields that never fall, quiet or
  not). `Beacon.SnapshotMayMixBeats` is a run with two that are.
- `beacon.rs:94-97` says the count moving while the counters appear frozen cannot be manufactured by skew.
  It can (`Beacon.CountMayMoveAlone`): the first read may latch a count and then load the payload of the
  next beat, so that the second read finds only the count changed. A field that moved over the beats
  counted reads the same exactly when no beat that moved it reached memory between its two loads
  (`Beacon.FrozenExactly`). It does not last: a move two beats past the count of some later read is seen
  by every read that counts it (`Beacon.FrozenNoLonger`).
- `guard.rs:386-402` says only orders that take exposure off get out while a loss bound is tripped. Of one
  batch that is so (`Guard.TrippedBatchOnlyReduces`). Each call judges by what is held, which an accepted
  order does not change until it fills, so two accepted calls can together turn a position
  (`GuardSessions.TwoCallsMayFlip`). From the moment the limit trips it holds exactly when the orders open
  then lean against what is held without exceeding it, and every later batch was accepted with room for
  it beside those still open (`GuardSessions.TrippedSessionSafeExactly`).
- `marks.rs:197-199` says a price that has expired is not usable. It is judged by the clock loaded before
  the lookup (`Marks.ServedExactlyWhileFresh`), so a price fresh by that clock is returned expired exactly
  when another thread, before the lookup, showed the cache a time past its expiry
  (`Marks.ExpiredIsServedExactly`, `Marks.ExpiredMayBeServed`).
- `tracker.rs:338-342` calls `risk_position` what is held plus the worst case. It is what every live order
  filling in full would leave, in which resting buys and sells cancel; no part of the resting orders can
  leave more exactly when they are all on one side and, if that is against the position, amount to at
  least twice it (`TrackerOrders.WorstCaseExactly`, `TrackerOrders.RestingMayNetOut`).

## Model

| member | source | states |
|---|---|---|
| Numeric.PairwiseInner | crates/axon-features/src/numeric.rs:105-154 | the recursion with its 8-wide unrolled block returns the value of one fixed tree of additions, for every arithmetic |
| Numeric.Unrolled | crates/axon-features/src/numeric.rs:119-147 | the eight accumulators, their combination and the tail loop evaluate that block's tree |
| Numeric.Accumulate | crates/axon-features/src/numeric.rs:125-133 | accumulator `k` ends as the left-to-right sum of every eighth element from `k` |
| Numeric.PairwiseSum | crates/axon-features/src/numeric.rs:98-103 | the sum of a window starts from positive zero and adds the pairwise tree to it |
| Numeric.StdIn | crates/axon-features/src/numeric.rs:218-240 | the deviation computed in a lent scratch buffer is the two-pass deviation of the window, not a second formula |
| Numeric.EveryElementWeighedOnce | crates/axon-features/src/numeric.rs:98-154 | for any weighting of elements, the tree's total weight is the plain left-to-right total: nothing is added twice or dropped |
| Numeric.LeavesAreTheWindow | crates/axon-features/src/numeric.rs:98-154 | the leaves of the tree are the window as a multiset |
| Accuracy.PairwiseDepth | crates/axon-features/src/numeric.rs:55-56 | with at most 16 + 112 * 2^k elements no element passes through more than 25 + k additions |
| Accuracy.ChainDepth | crates/axon-features/src/numeric.rs:55-56 | the plain loop is one addition deep for each element |
| Accuracy.PairwiseIsExact | crates/axon-features/src/numeric.rs:98-154 | over exact addition the pairwise sum is the plain sum |
| Accuracy.PairwiseError | crates/axon-features/src/numeric.rs:55-56 | with each addition off by relative error at most u, the total error is at most ((1+u)^(25+k) - 1) times the sum of magnitudes |
| Registry.LookbackIsReach | crates/axon-features/src/functions.rs:440-703 | a declared finite lookback is how far back the arithmetic reads, and it can be declared for parameters the evaluation refuses exactly when `ddof` is at fault |
| Registry.UnboundedIsEma | crates/axon-features/src/registry.rs:220-357 | a lookback is unbounded exactly for the two exponential averages |
| Registry.CrossoverSpans | crates/axon-features/src/functions.rs:559-573 | spans are accepted exactly when both are whole numbers from one up and fast is strictly below slow, and are then those numbers |
| Registry.ReadParams | crates/axon-features/src/functions.rs:440-640 | accepted parameters are ones the arithmetic is defined for, with as many inputs as the transform declares; every refusal is a parameter error |
| Registry.ReadsExactly | crates/axon-features/src/functions.rs:440-640 | parameters are accepted exactly when every window-shaped one is a whole number in range, with `period` and `ddof` by default, and the arithmetic then runs with those numbers |
| Functions.RollingMean | crates/axon-features/src/functions.rs:96-109 | every cell of the output is the mean of its trailing window, NaN until the window fills, and cells past the series are untouched |
| Functions.RollingStd | crates/axon-features/src/functions.rs:111-126 | the same for the deviation, whose scratch window is copied in place |
| Functions.RollingZscore | crates/axon-features/src/functions.rs:139-154 | each cell is the distance from its own window's mean in its own window's deviations, NaN when that is not positive |
| Functions.LogReturn | crates/axon-features/src/functions.rs:161-177 | each cell is the log ratio to the price one period earlier, NaN unless both are positive |
| Functions.RealizedVolatility | crates/axon-features/src/functions.rs:187-204 | each cell is the deviation of the one-step log returns of its window |
| Functions.Ema | crates/axon-features/src/functions.rs:213-236 | the running level and count are those of the recursion over the prefix, non-finite observations skipped, and a cell appears once `span` have been seen |
| Functions.TradeFlowImbalance | crates/axon-features/src/functions.rs:330-350 | each cell is the signed share of its window's volume, NaN without volume |
| Functions.Evaluate | crates/axon-features/src/functions.rs:440-640 | a transform by name fails exactly when its parameters are refused, and otherwise fills the leading cells with its definition's |
| Cells.CellsAgree | crates/axon-features/src/registry.rs:220-357 | causality and finite lookback at once: a cell of any transform is the same on any two series that agree on the observations within its reach, wherever they lie |
| EmaHistory.EmaNeedsHistory | crates/axon-features/src/functions.rs:206-236 | over exact arithmetic, for every depth there are two series equal on their last so many observations whose EMA differs, if and only if the span is at least two |
| EmaHistory.EmaCrossoverNeedsHistory | crates/axon-features/src/functions.rs:262-270 | the same for every legal EMA crossover |
| ExactReals.ExactOpsExist | crates/axon-features/src/functions.rs:206-236 | the exact arithmetic those two are stated over exists, with any root and logarithm |
| Statistics.SumIsTotal | crates/axon-features/src/functions.rs:128-137 | the pairwise sum of numbers is their plain sum, and a NaN anywhere makes it one |
| Statistics.MeanIs | crates/axon-features/src/functions.rs:96-109 | `n` times the mean of a window is its plain sum |
| Statistics.StdSquared | crates/axon-features/src/numeric.rs:218-240 | `n - ddof` times the square of the deviation is the plain sum of squared distances from that mean |
| Statistics.StdOfShifted | crates/axon-features/src/functions.rs:111-126 | moving a window leaves its deviation alone |
| Statistics.StdOfScaled | crates/axon-features/src/functions.rs:111-126 | scaling a window by `c` scales its deviation by the magnitude of `c` |
| Statistics.WindowCells | crates/axon-features/src/functions.rs:96-137 | each cell of a rolling sum, mean or deviation is that of the numbers in its window, and there is none before the window fills |
| Statistics.MissingCells | crates/axon-features/src/functions.rs:96-137 | a NaN in the window makes all three one |
| Statistics.StdCell | crates/axon-features/src/functions.rs:111-126 | what the rolling deviation writes, squared and times `window - ddof`, is the sum of squared distances of its window from its mean |
| Statistics.ZscoreCell | crates/axon-features/src/functions.rs:139-154 | what the rolling z-score writes is how many deviations of its window the observation lies from its mean, and nothing when they are zero |
| Formulas.MidAndSpread | crates/axon-features/src/functions.rs:279-297 | half the spread either side of the midpoint are the quotes, and both are there exactly when both quotes are positive |
| Formulas.RelativeSpreadIs | crates/axon-features/src/functions.rs:299-311 | the spread in basis points of the midpoint |
| Formulas.ImbalanceIs | crates/axon-features/src/functions.rs:313-328 | the difference of the sides as a share of both, 1 exactly without asks and -1 exactly without bids, there exactly for sides that are not negative and not both zero |
| Formulas.RangeIs | crates/axon-features/src/functions.rs:377-398 | the range in basis points of the close, there exactly for a positive close and ordered bar |
| Formulas.LocationIs | crates/axon-features/src/functions.rs:400-412 | 1 exactly at the high, -1 exactly at the low, between them exactly inside the bar |
| Formulas.PointwiseCells | crates/axon-features/src/registry.rs:220-357 | which input is which: bid and ask of a quote, high, low and close of a bar |
| Formulas.CrossCells | crates/axon-features/src/functions.rs:247-270 | the fast average is the slow one and the crossover's share of it more |
| Formulas.ReturnIs | crates/axon-features/src/functions.rs:161-177 | the log return is the logarithm at the price less that a period earlier |
| Formulas.ReturnExists | crates/axon-features/src/functions.rs:161-177 | there is none before the period, nor unless both prices are positive |
| Formulas.ReturnsAddUp | crates/axon-features/src/functions.rs:161-185 | the rolling sum of one-step returns over a period is the return over it |
| Formulas.VolatilityIs | crates/axon-features/src/functions.rs:187-204 | the deviation, with nothing given up, of the window's one-step returns |
| Formulas.EmaIsWeighted | crates/axon-features/src/functions.rs:213-236 | the average is the observations weighted by `a(1 - a)^k`, `k` back, with `a = 2 / (span + 1)` and the first taking what is left; the weights add up to one |
| Formulas.EmaPresentExactly | crates/axon-features/src/functions.rs:213-236 | in every arithmetic, a cell is there exactly at a finite observation once `span` finite ones have been seen, and is the level over the finite ones alone |
| Formulas.FlowIs | crates/axon-features/src/functions.rs:330-350 | the signed share of the window's volume, from -1 to 1, there exactly with volume |
| Reach.ReachIsNeeded | crates/axon-features/src/registry.rs:220-357 | for every operation with a finite reach there are inputs of just that length whose oldest observation decides the last cell |
| Spec.RequiredInputs | crates/axon-features/src/spec.rs:296-308 | the sorted names some column reads that no earlier column produces, all of them and no others |
| Spec.Compute | crates/axon-features/src/spec.rs:551-634 | accepts exactly the specs and inputs that make sense, and every cell is the column's transform of earlier columns and inputs |
| Spec.FillMatrix | crates/axon-features/src/spec.rs:585-634 | the loop over a growing name table stores, column by column, what the definition says, and stops with the error of the first column it cannot wire or run, of the kind that column has |
| Spec.ColumnsPrefix | crates/axon-features/src/spec.rs:551-634 | adding columns at the end of a spec changes no earlier column |
| Renaming.ColumnReadsItsBindings | crates/axon-features/src/spec.rs:136-148 | a column is its transform of the series its arguments are bound to, argument by argument: the earlier column of that name, else the series supplied under it |
| Renaming.RequiredAreBound | crates/axon-features/src/spec.rs:296-308 | the inputs needed are exactly the outside names arguments are bound to |
| Renaming.RenamingKeepsColumns | crates/axon-features/src/spec.rs:136-148 | binding every outside series by another name, and supplying it under that, changes no column, through any depth of bindings |
| Renaming.RenamingRenamesRequired | crates/axon-features/src/spec.rs:296-308 | the inputs needed are then exactly the renamed ones |
| Renaming.RenamingKeepsAcceptance | crates/axon-features/src/spec.rs:551-634 | and the spec is wired and run exactly when it was |
| Renaming.SwappingBindings | crates/axon-features/src/spec.rs:136-148 | swapping the two bindings of a two-input transform gives the column of the two series swapped |
| ExactReals.TooLargeExactly | crates/axon-features/src/lib.rs:141-147 | an observation is refused for its size exactly from 2^53 up, and a NaN never |
| Lookback.UnboundedIffReachesEma | crates/axon-features/src/spec.rs:493-542 | a column's derived lookback is `None` exactly when some path of bindings leads from it to an exponential average |
| Lookback.ColumnLookback | crates/axon-features/src/spec.rs:511-542 | the loop over recorded depths returns the composed depth, or the error of the first column whose lookback cannot be read |
| Lookback.MaxLookback | crates/axon-features/src/spec.rs:493-509 | the least depth that covers every column, or an unbounded column that does reach an exponential average |
| Lookback.LibmColumns | crates/axon-features/src/spec.rs:457-475 | exactly the columns some path of bindings leads from to a logarithm, in matrix order |
| Tightness.LookbackIsTight | crates/axon-features/src/spec.rs:511-542 | for every chain of rolling sums the composed lookback is the windows less one observation at each link, and the oldest observation it reaches decides the value |
| Logarithms.OffTheListIgnoresLog | crates/axon-features/src/spec.rs:457-475 | a column off the list is the same on all inputs, through any depth of bindings, under any two arithmetics that differ in their logarithm alone |
| Logarithms.ReachesLibmExactly | crates/axon-features/src/registry.rs:220-357 | a transform puts its column on the list exactly when, for whatever accepted parameters, some inputs tell two logarithms apart |
| Logarithms.SelectedExactly | crates/axon-features/src/spec.rs:457-475 | the list names exactly the marked columns |
| Logarithms.SelectedInOrder | crates/axon-features/src/spec.rs:457-475 | each once, in matrix order |
| Causality.StretchMatchesHistory | crates/axon-features/src/spec.rs:511-634 | a column at an observation of the whole history equals the same column over any stretch that reaches back its derived depth, through any depth of bindings |
| Streaming.WithLookback | crates/axon-features/src/streaming.rs:203-292 | a stream can be built exactly when the depth covers every column and no column name shadows an input |
| Streaming.NewStream | crates/axon-features/src/streaming.rs:174-200 | a stream can be built exactly when some finite depth covers every column and nothing is shadowed, and its buffers are then the least depth that does |
| Streaming.FeatureStream.AppendTo | crates/axon-features/src/streaming.rs:366-388 | appending in place or compacting a full buffer by one leaves the trailing window, and no other buffer moves |
| Streaming.FeatureStream.EvaluateAll | crates/axon-features/src/streaming.rs:390-414 | re-evaluating the plan over the buffers computes the batch columns of the buffered window, and fails exactly when some transform refuses |
| Streaming.FeatureStream.Push | crates/axon-features/src/streaming.rs:337-416 | a malformed observation changes nothing; a well-formed one joins the history and the row equals the batch row of the whole history at this index, cell for cell, unless a transform refuses its parameters, and then the row is blanked |
| Streaming.LastRowMatches | crates/axon-features/src/streaming.rs:15-28 | the last row over the trailing window is the batch row at that index |
| Replay.StreamAll | crates/axon-features/src/streaming.rs:337-416 | every row of a whole run pushed through a fresh stream is that row of the batch matrix |
| Replay.CompareWithBatch | crates/axon-features/src/streaming.rs:15-28 | on the same observations the two paths both fail or agree in every cell |
| Replay.EarlierRowsStand | crates/axon-features/src/functions.rs:206-236 | observations that come later change no earlier row |
| Replay.ServableButNotRunnable | crates/axon-features/src/streaming.rs:400-410 | a stream that was built can never be pushed through exactly when some column's `ddof` is refused |
| Replay.PushCanFailAfterConstruction | crates/axon-features/src/streaming.rs:404-405 | such a spec exists |
| JsonRoundTrip.EscapeRead | crates/axon-features/src/spec.rs:765-789 | the escape of any character, surrogate pairs included, reads back as that character and leaves the rest |
| JsonRoundTrip.ParseUndoesText | crates/axon-features/src/spec.rs:722-763 | parsing the canonical text of any value with sorted keys gives back the value |
| JsonRoundTrip.TextIsInjective | crates/axon-features/src/spec.rs:722-763 | values with the same canonical bytes are equal |
| JsonRoundTrip.TextPlain | crates/axon-features/src/spec.rs:765-789 | canonical text is printable ASCII throughout |
| CanonicalForm.EscapeIsShortest | crates/axon-features/src/spec.rs:765-789 | the escape of a character is the shortest printable ASCII that reads as it, and, in lower case, the only one of that length |
| CanonicalForm.BodyLayout | crates/axon-features/src/spec.rs:314-324 | the hashed bytes key by key: `features`, `library_version`, `spec`, `version`, with nothing between but punctuation |
| CanonicalForm.ColumnLayout | crates/axon-features/src/spec.rs:149-172 | one column's bytes, its inputs and parameters written as `{}` when there are none |
| JsonWriter.WriteJsonString | crates/axon-features/src/spec.rs:765-789 | the character loop appends exactly the quoted literal to the string it was lent |
| JsonWriter.WriteCanonical | crates/axon-features/src/spec.rs:728-763 | the writer appends exactly the canonical text, commas between items and keys in map order |
| SpecJson.NamesAreDistinct | crates/axon-features/src/registry.rs:220-368 | no two transforms share a registered name |
| SpecJson.BodyRoundTrip | crates/axon-features/src/spec.rs:314-338 | the canonical body of every valid spec parses, and back to the spec |
| SpecJson.BodyIdentifiesSpec | crates/axon-features/src/spec.rs:314-343 | two specs have the same canonical body exactly when they are the same spec, column order included |
| SpecJson.ParseUndoesCanonicalJson | crates/axon-features/src/spec.rs:328-438 | `parse(canonical_json(s))` is `s` with its own fingerprint, which lands in sorted position |
| SpecJson.LoadAcceptsExactly | crates/axon-features/src/spec.rs:356-381 | the load path accepts what was written exactly when it was written against this library version |
| SpecJson.LoadedIsValid | crates/axon-features/src/spec.rs:174-265 | whatever loads satisfies every constructor check |
| SpecJson.ExplicitIsCanonical | crates/axon-features/src/spec.rs:314-438 | the other way round: a payload with sorted keys that spells everything out and loads as `s` is the canonical body of `s`, byte for byte |
| SpecJson.AlteredPayloadNeedsCollision | crates/axon-features/src/spec.rs:356-375 | a payload that carries the fingerprint of one spec but loads as another is a collision of the hash on two different bodies |
| Modular.MaskIsRemainder | crates/axon-ipc/src/lib.rs:322-340 | masking with a power of two less one takes the remainder |
| Modular.ModOfMod | crates/axon-ipc/src/lib.rs:322-340 | the slot of a wrapped counter is the slot of the counter, because the capacity divides 2^64 |
| Modular.WrappedDifference | crates/axon-ipc/src/beacon.rs:364-368 | the wrapped difference of two counters is the true one exactly below a word |
| RingProtocol.StepKeeps | crates/axon-ipc/src/lib.rs:322-453 | every step of either process keeps the protocol invariant: stale index reads, byte copies and buffered stores included |
| RingProtocol.FirstInFirstOut | crates/axon-ipc/src/lib.rs:322-453 | in every interleaving the popped records are a prefix of the pushed ones and at most a capacity is queued |
| RingProtocol.NoWriteUnderRead | crates/axon-ipc/src/lib.rs:322-453 | no byte, issued or anywhere in the store buffer, is for the slot the consumer is copying out of |
| RingProtocol.AccessesInBounds | crates/axon-ipc/src/lib.rs:322-453 | every byte access of either process is inside the slots |
| RingProtocol.RefusalsAreExact | crates/axon-ipc/src/lib.rs:326-330 | a push is refused exactly when, by the tail it loaded, a capacity was queued; a pop exactly when, by the head it loaded, nothing was |
| RingProtocol.HistoriesOnlyGrow | crates/axon-ipc/src/lib.rs:322-453 | completed calls are never undone, and a pop delivers the next record in line |
| RingProtocol.LenIsQueued | crates/axon-ipc/src/lib.rs:350-354 | each end's `len` is the number of records it can see queued, wrapped counters or not |
| RingBuffer.Ring.TryPush | crates/axon-ipc/src/lib.rs:322-340 | with one process, a push appends to the queue unless it holds a capacity |
| RingBuffer.Ring.TryPop | crates/axon-ipc/src/lib.rs:436-453 | a pop takes the oldest record, or none from an empty queue |
| RingBuffer.Ring.Drain | crates/axon-ipc/src/lib.rs:469-481 | draining takes as many as there are up to the maximum, in order, and leaves the rest |
| Beacon.StepKeeps | crates/axon-ipc/src/beacon.rs:361-389 | every step of publisher or reader keeps memory explained by the beats begun and the stores committed |
| Beacon.FieldsNoOlderThanCount | crates/axon-ipc/src/beacon.rs:492-514 | in every interleaving each field of a snapshot is what some beat stored, and that beat is no older than the count beside it |
| Beacon.ReadsNeverGoBack | crates/axon-ipc/src/beacon.rs:88-90 | with payloads that never fall, no field goes backwards between two reads |
| Beacon.DeltasAreExact | crates/axon-ipc/src/beacon.rs:366-380 | the wrapping difference of a truncated counter between two reads is the true increase exactly below 2^32 |
| Beacon.MovingCountMovesPayload | crates/axon-ipc/src/beacon.rs:91-94 | every field read beside a count that moved is from a beat past the earlier count |
| Beacon.PairIsAStateExactly | crates/axon-ipc/src/beacon.rs:88-90 | two non-decreasing fields of a snapshot are together what some beat published exactly when the one from the earlier beat is not torn from the other |
| Beacon.SnapshotIsAStateExactly | crates/axon-ipc/src/beacon.rs:88-90 | any set of non-decreasing payload fields of a snapshot, short of a wrap, is what some beat published exactly when no two were torn: one loaded before some beat that moved it reached memory, the other after that beat or a later one had moved it there |
| Beacon.RisingFieldsNeedOneBeat | crates/axon-ipc/src/beacon.rs:88-90 | so fields that move at every beat are what some beat published exactly when they all come from one |
| Beacon.FieldMovesExactly | crates/axon-ipc/src/beacon.rs:94-97 | a non-decreasing field differs between two reads exactly when a beat that moved it reached memory between its two loads, and so whenever the count of the later read is past a move the earlier had not got |
| Beacon.FrozenExactly | crates/axon-ipc/src/beacon.rs:94-97 | the count moves over beats that moved a field, and the field reads the same, exactly when none of its moves reached memory between its two loads; the earlier read then already had all the later one counts |
| Beacon.PayloadOneAhead | crates/axon-ipc/src/beacon.rs:82-86 | a payload runs at most one beat ahead of the count any later read reports |
| Beacon.FrozenNoLonger | crates/axon-ipc/src/beacon.rs:94-97 | a beat that moved a field, two past the count of some later read, is seen to have moved it by every read that counts that beat |
| Beacon.RisingFrozenNoLonger | crates/axon-ipc/src/beacon.rs:94-97 | so once the count has moved by two between two later reads, a field that moves at every beat no longer says what the earliest read got |
| Beacon.CountMayMoveAlone | crates/axon-ipc/src/beacon.rs:94-97 | a run of a publisher that moves every time and counter at every beat, in which the count moves and the whole payload does not |
| Beacon.SnapshotMayMixBeats | crates/axon-ipc/src/beacon.rs:88-90 | a run of a publisher no field of which ever falls, whose snapshot reports two counters no beat ever reported together |
| Beacon.Page.Publish | crates/axon-ipc/src/beacon.rs:361-389 | one process's publish makes the page that beat's, counters truncated, and returns the new count |
| Beacon.Page.Read | crates/axon-ipc/src/beacon.rs:405-426 | with nothing running beside it, a read says of the last beat, name by name, what was published, and of the page before any that it runs |
| Positions.Position.ApplyFill | crates/axon-core/src/position.rs:50-96 | the three-case update is average-cost accounting of the signed trade |
| Positions.TradeConserves | crates/axon-core/src/position.rs:39-96 | one trade changes realized plus unrealized profit by its own worth at every mark, and quantity by its signed size |
| Positions.ProfitIsWorth | crates/axon-core/src/position.rs:39-96 | over every fill sequence and mark, total profit is the sum of signed size times (mark - price), and quantity the signed sum |
| Positions.AverageAmongPrices | crates/axon-core/src/position.rs:17-18 | the average price of an open position lies among the prices paid since it was last opened |
| Positions.RealizedByClosing | crates/axon-core/src/position.rs:77-83 | profit is realized only by closing, on the part closed, at the distance from the average |
| Positions.FlatRealizesAll | crates/axon-core/src/position.rs:85-87 | an account that is flat has realized all its trades are worth and has no price |
| TrackerRuns.WindowAfter | crates/axon-execution/src/tracker.rs:469-484 | after any run the set and the queue of seen ids hold the same ids, each once, at most the window, and they are the last ids applied |
| TrackerRuns.ReplaysRemoved | crates/axon-execution/src/tracker.rs:479-484 | any run ends in the whole state of the run with its replays removed |
| TrackerRuns.ReplayIsNoOp | crates/axon-execution/src/tracker.rs:469-484 | a fill changes nothing exactly when fewer than the window of new trades have been applied since its own was |
| TrackerRuns.RealizedIsConserved | crates/axon-execution/src/tracker.rs:490-509 | after any run, session plus inherited realized profit is the sum over all positions |
| TrackerRuns.EveryFillCountsOnce | crates/axon-execution/src/tracker.rs:147-175 | fees, venue profit and fill counts land on exactly one side of the boundary in force, and total those of the trades applied |
| TrackerRuns.FiguresAreOfTrades | crates/axon-execution/src/tracker.rs:147-175 | figure by figure: fees are the fees of the trades applied, the venue's profit theirs, makers and takers counted apart |
| TrackerRuns.SnapshotsAreEnds | crates/axon-execution/src/tracker.rs:640-650 | the first and the last account snapshot kept are the first and the last of the run |
| TrackerRuns.ProfitOfEverySymbol | crates/axon-execution/src/tracker.rs:479-495 | after any run without `adopt_position`, every symbol's profit is the worth of its applied trades at every mark |
| TrackerOrders.OrdersAdvance | crates/axon-execution/src/tracker.rs:526-590 | over any run of venue events, an order's fills never decrease and cover the fills applied to it, and a finished order stays finished |
| TrackerOrders.VenueFiguresCovered | crates/axon-execution/src/tracker.rs:560-561 | and they cover every figure the venue reported while it was live |
| TrackerOrders.OverwritesExactly | crates/axon-execution/src/tracker.rs:597-606 | an adoption replaces a tracked order exactly when it has no client id, is unknown, and its venue id is that order's number |
| TrackerOrders.FoundByVenueId | crates/axon-execution/src/tracker.rs:541-628 | after an update that is not ignored its order is found by the venue's id alone |
| TrackerOrders.ClientIdDecides | crates/axon-execution/src/tracker.rs:541-545 | an event that echoes a tracked client id is about that order, whatever venue id it carries |
| TrackerOrders.RetiringKeepsFinding | crates/axon-execution/src/tracker.rs:452-467 | a live order its venue id finds is still found by it after finished orders are retired exactly when no finished order carries the same id |
| TrackerOrders.DistinctIdsUndisturbed | crates/axon-execution/src/tracker.rs:602-604 | runs whose ids do not collide so leave the order to its own history |
| TrackerOrders.LiveKeepRemaining | crates/axon-execution/src/tracker.rs:536-585 | live orders have size left to fill after a step exactly when the step admitted none without any |
| TrackerOrders.LiveAlwaysHaveRemaining | crates/axon-execution/src/tracker.rs:232-590 | so they do after every run that admits none |
| TrackerOrders.ChannelsCommuteExactly | crates/axon-execution/src/tracker.rs:554-561 | a fill and an update of one live order give the same filled quantity in either order exactly when the venue's figure does not exceed ours |
| TrackerOrders.ChannelsMayDisagree | crates/axon-execution/src/tracker.rs:526-561 | one fill that is counted once in one order and twice in the other |
| TrackerEndings.FinishedExactly | crates/axon-execution/src/tracker.rs:526-590 | an event finishes a live order exactly when it is for it and reports a terminal status or brings its fills up to its size, however it is stamped |
| TrackerEndings.FilledBy | crates/axon-execution/src/tracker.rs:526-561 | a fill adds its quantity, an update raises ours to the venue's figure, and nothing else changes it |
| TrackerEndings.TerminalUpdatesFinish | crates/axon-execution/src/tracker.rs:563-570 | over any run, once an update finds an order live and reports it terminal the order is finished in every later state and none of it is exposure |
| TrackerEndings.FinishedByExactly | crates/axon-execution/src/tracker.rs:526-590 | an order is finished at the end of a run exactly when it was at the start or some event of the run finished it |
| TrackerEndings.NewestFrameStands | crates/axon-execution/src/tracker.rs:566-577 | the size and price of an update as new as anything its order was told stand against every older one after it, and so does its status while nothing fills or finishes the order |
| TrackerOrders.ExposureMovesExactly | crates/axon-execution/src/tracker.rs:343-353 | a trade not seen before leaves its symbol's risk position alone exactly when it filled a live order of that symbol and side with room for it, and then every other symbol's too |
| TrackerOrders.WorstCaseExactly | crates/axon-execution/src/tracker.rs:338-353 | no part of the live orders, filled, leaves a larger position than the one reported exactly when they are all on one side and, if that is against the position, amount to at least twice it |
| TrackerOrders.RestingMayNetOut | crates/axon-execution/src/tracker.rs:338-353 | two resting orders that report nothing and can leave a position of five |
| TrackerOrders.AckedIsExposure | crates/axon-execution/src/tracker.rs:232-264 | an accepted order is exposure in full from its ack on, in place of whatever its client id named |
| TrackerOrders.AdoptedIsExposure | crates/axon-execution/src/tracker.rs:592-628 | an adopted order is exposure by what the venue says remains of it |
| TrackerOrders.OverwritingMoves | crates/axon-execution/src/tracker.rs:300-319 | adopting a position sets quantity and price, leaves profit, other positions and orders, moves the risk position by the difference and counts exactly a change |
| TrackerOrders.RetiringKeepsRisk | crates/axon-execution/src/tracker.rs:452-467 | forgetting finished orders forgets no exposure |
| OrderTrackers.OrderTracker.ApplyFill | crates/axon-execution/src/tracker.rs:479-539 | the in-place update of window, position, money and order is the fill step of the state |
| OrderTrackers.OrderTracker.ApplyUpdate | crates/axon-execution/src/tracker.rs:541-628 | the in-place lifecycle update or adoption is the update step of the state |
| OrderTrackers.OrderTracker.RememberTrade | crates/axon-execution/src/tracker.rs:469-477 | remembering evicts the oldest id from set and queue together |
| OrderTrackers.OrderTracker.RetireTerminal | crates/axon-execution/src/tracker.rs:452-467 | removing finished orders one by one, in any order, leaves the live ones and drops exactly their venue ids |
| OrderTrackers.OrderTracker.RiskPosition | crates/axon-execution/src/tracker.rs:343-353 | the sum over a map in any order is the held quantity plus everything live filled |
| OrderTrackers.OrderTracker.Ack | crates/axon-execution/src/tracker.rs:232-264 | an ack records the order unless it came back finished without filling |
| OrderTrackers.OrderTracker.AdoptPosition | crates/axon-execution/src/tracker.rs:300-319 | adopting a position overwrites quantity and price, no money, and returns what was held |
| Risk.ReducesExactly | crates/axon-risk/src/lib.rs:63-77 | an order takes exposure off exactly when its size is positive, it is on the other side and it is no larger than what is held |
| Risk.ClearsExactly | crates/axon-risk/src/lib.rs:95-150 | an order clears exactly when it is no larger than the largest and, filled in full, leaves a position within both caps or, reduce-only, one that neither grew nor turned |
| Risk.ClearedKeepsCaps | crates/axon-risk/src/lib.rs:95-150 | a cap that held before a cleared order holds after it |
| Portfolio.CarriedQty | crates/axon-risk/src/portfolio.rs:209-229 | carrying an order into the book changes its own leg by its signed size and no other |
| GuardCaps.CarriedMark | crates/axon-risk/src/portfolio.rs:209-229 | a leg keeps the mark it has; the order's only fills a gap |
| Portfolio.SumGross | crates/axon-risk/src/portfolio.rs:238-248 | the loop returns the magnitudes at their marks, or nothing for an unpriced leg |
| Portfolio.SumNet | crates/axon-risk/src/portfolio.rs:250-259 | the same for the magnitude of the signed sum |
| Portfolio.PricedExactly | crates/axon-risk/src/portfolio.rs:238-259 | a total is there exactly when every leg that is not flat has a mark |
| Portfolio.NetWithinGross | crates/axon-risk/src/portfolio.rs:101-113 | the net of a book is never above its gross |
| Portfolio.AdmitsExactly | crates/axon-risk/src/portfolio.rs:333-407 | an order that does not reduce is admitted exactly when it leaves the book within its bounds and opens no instrument past the last allowed |
| Portfolio.UnpricedIsNamed | crates/axon-risk/src/portfolio.rs:372-379 | a refusal for want of a price names an open leg that has none |
| Portfolio.ReducingMayWidenNet | crates/axon-risk/src/portfolio.rs:32-36 | an order that reduces its leg is admitted though it widens the net past its bound |
| Guard.GuardedClient.CheckBatch | crates/axon-execution/src/guard.rs:461-510 | a batch is accepted exactly when it fits and each order passes alone in the world where all earlier ones have filled; otherwise the reason is the first failing order's |
| GuardCaps.PassesExactly | crates/axon-execution/src/guard.rs:446-457 | an order passes exactly when the loss limit, the book, the price rule and the size caps all admit it, and is refused for the first that does not |
| GuardCaps.FillsAtItsPrice | crates/axon-execution/src/guard.rs:494-499 | the fill assumed of an accepted order is at its own limit, else at the mark, else at the average |
| GuardCaps.OrderWithinCaps | crates/axon-execution/src/guard.rs:461-510 | right after each order of an accepted batch its position is within both caps, or, reduce-only, neither grew nor turned |
| GuardCaps.BatchWithinCaps | crates/axon-execution/src/guard.rs:461-510 | after any prefix of an accepted batch every projected position is within both caps or no further out than it began |
| GuardCaps.UnpricedOnlyShrinks | crates/axon-execution/src/guard.rs:352-370 | a symbol without a usable price only gets smaller |
| GuardCaps.OrderWithinBook | crates/axon-execution/src/guard.rs:476-492 | right after an order that does not reduce what is held the carried book is priced and within every declared bound |
| GuardCaps.BatchWithinBook | crates/axon-execution/src/guard.rs:476-492 | while nothing rests, after any prefix of an accepted batch the gross and the number of open instruments are within their bounds or no larger than they began |
| Guard.WorldMoves | crates/axon-execution/src/guard.rs:470-507 | projected position, held quantity and book all move by the same net of the batch's fills, symbol by symbol |
| Guard.TrippedBatchOnlyReduces | crates/axon-execution/src/guard.rs:386-402 | while the loss limit is tripped, whatever part of each order of an accepted batch fills, no symbol's position grows or changes sign |
| Guard.TrippedBatchOpensNothing | crates/axon-execution/src/guard.rs:386-402 | and no order of it is for a symbol that is flat |
| GuardSessions.SafeExactly | crates/axon-execution/src/guard.rs:372-384 | no part of the open orders can grow or turn a position exactly when they all lean against it and together do not exceed it |
| GuardSessions.SubmitSafeExactly | crates/axon-execution/src/guard.rs:386-402 | accepting one more batch keeps a tripped session so exactly when there is room for it beside the orders still open |
| GuardSessions.RoomWhenNothingOpen | crates/axon-execution/src/guard.rs:386-402 | there is, for whatever the gate accepts, when nothing is open in its symbols |
| GuardSessions.FillsKeepSafe | crates/axon-execution/src/guard.rs:386-402 | fills in any order and any part, and cancels, keep it so |
| GuardSessions.TrippedSessionSafeExactly | crates/axon-execution/src/guard.rs:372-402 | over every sequence of accepted batches, fills and cancels after the limit trips, whatever was open then: at no point can the open orders grow or turn a position, exactly when those open at the start lean against what is held without exceeding it and each batch was accepted with room |
| GuardSessions.TwoCallsMayFlip | crates/axon-execution/src/guard.rs:386-402 | two accepted sells of one, against a position of one, can together turn it |
| InFlight.StepRefinesSet | crates/axon-execution/src/inflight.rs:116-150 | each atomic step is the set operation of its name, and a claim is won exactly when the symbol was absent |
| InFlight.SymbolsNeverAlias | crates/axon-execution/src/inflight.rs:209-215 | two symbols within the bound never share a bit |
| InFlight.NoSecondClaim | crates/axon-execution/src/inflight.rs:116-150 | in every interleaving some step freed a symbol between two claims won for it |
| InFlight.AtMostOneAdmitted | crates/axon-execution/src/inflight.rs:46-53 | past the bound at most one symbol is admitted, and the slot says whether one is, while no release frees it from under another symbol |
| InFlight.TruthfulExactly | crates/axon-execution/src/inflight.rs:132-150 | on every run the slot counts the admitted symbols past the bound, at most one, all the way through exactly when no release frees it from under another symbol |
| InFlight.StrangersReleaseAdmitsTwo | crates/axon-execution/src/inflight.rs:141-143 | a release by a symbol that holds nothing admits a second |
| InFlight.Slots.Claim | crates/axon-execution/src/inflight.rs:116-128 | the call makes those atomic steps and returns whether it won |
| InFlight.Slots.Release | crates/axon-execution/src/inflight.rs:136-150 | the release clears the symbol and counts itself, claimed or not |
| InFlight.Slots.Len | crates/axon-execution/src/inflight.rs:177-185 | with nothing else running, the population count over the words is the set's cardinality plus the overflow slot |
| Marks.StaleExactly | crates/axon-execution/src/marks.rs:256-260 | saturating subtraction calls a price stale exactly when it is older than the maximum age, and under the largest maximum never |
| Marks.LiveMarkIsNeverDisplaced | crates/axon-execution/src/marks.rs:141-195 | once a venue mark is stored, every later state has it expired or holds a venue mark at least as new, under any interleaving of writers |
| Marks.ServedIsLive | crates/axon-execution/src/marks.rs:202-206 | while that mark is live at the lookup, a reader that loaded the clock earlier is served a venue mark at least as new |
| Marks.TimesNeverGoBack | crates/axon-execution/src/marks.rs:121-195 | neither the clock nor the time of any stored price goes back, and no price is forgotten |
| Marks.NewestMarkStands | crates/axon-execution/src/marks.rs:164-195 | on every run the stored price is one that was written, and no venue mark written so far is newer |
| Marks.WrittenStands | crates/axon-execution/src/marks.rs:164-195 | a price no older than the incumbent is stored, unless it is a midpoint and the incumbent a venue mark still live by its writer's clock |
| Marks.ServedExactlyWhileFresh | crates/axon-execution/src/marks.rs:197-206 | from an empty cache, with other threads between the clock load and the lookup, a price is served exactly while it is within the maximum age of the clock loaded |
| Marks.ExpiredIsServedExactly | crates/axon-execution/src/marks.rs:197-206 | a price fresh by the clock loaded is served expired exactly when some other thread's step before the lookup showed the clock a time past its expiry |
| Marks.ExpiredMayBeServed | crates/axon-execution/src/marks.rs:202-206 | one such call, on a run from the empty cache |
| Marks.MarkCache.Set | crates/axon-execution/src/marks.rs:141-161 | a price shows the clock its own time and is then judged against the incumbent |
| Parity.Compare | crates/axon-features/src/parity.rs:923-1024 | the nested loop's counters, per-column tallies and kept divergences are those of the two matrices, its largest differences bound every cell's and, when above zero, are some cell's, and matrices that do not line up are refused |
| Parity.PassesExactly | crates/axon-features/src/parity.rs:415-417 | a bit-exact report passes exactly when there is at least one cell and every cell is NaN on both sides or bit-equal |
| Parity.MatchesExactly | crates/axon-features/src/parity.rs:313-330 | a cell matches exactly so, and disagrees on NaN exactly when one side is |
| Parity.ToleranceExactly | crates/axon-features/src/parity.rs:313-330 | over exact arithmetic a tolerance accepts exactly the differences up to it, on either side |
| Parity.KeptAreCells | crates/axon-features/src/parity.rs:1004-1018 | each kept divergence is a divergent cell as it stands in the two matrices: row, column, both values, and whether one of them alone is NaN |
| Parity.CountersAgree | crates/axon-features/src/parity.rs:964-1022 | column tallies sum to mismatches plus NaN disagreements, every cell is counted, and the kept divergences are the first twenty in row-major order |
| Parity.WorstColumn | crates/axon-features/src/parity.rs:460-473 | the column named has the most divergent cells, and of those, when the maxima lie in a line, the largest difference |
| Parity.MaximaComparable | crates/axon-features/src/parity.rs:460-473 | they do in every report a comparison builds, since no maximum is NaN, when `>` orders numbers as that of floats does |

## Left out

- Float parameters of a spec: the canonical text of a float is another library's, so parameters are booleans, 64-bit integers and strings; `SpecJson.ParamOf` reports an integer that does not fit 64 bits as an error where the code would read a float.
- SHA-256: the fingerprint is an arbitrary function of the canonical body.
- The JSON reader is this project's own, by RFC 8259, for compact text; `serde_json` is not part of this model. The writer's sort of keys is not modelled because the map it sorts iterates in key order already.
- The values of IEEE-754 operations and of the platform's `log`: the streaming and parity results hold for every arithmetic, the error bound under a relative rounding assumption, the necessity of history over exact reals with a NaN.
- Decimal precision: quantities and prices are exact reals, so rounding of averages and the 28-digit limit are not modelled; the sign of a zero decimal does not arise.
- Fills of negative size, which `apply_fill` asserts against in debug builds: position and gate take any size from zero up, the tracker's events any size above it.
- Integer overflow at the ends of the range (`ddof + 1`, `own + deepest - 1`, event counters): integers are unbounded except where wrapping is the point, in the ring, the beacon, the bitset and the mark clock.
- Row-major storage: a matrix is a two-dimensional array rather than one vector with a stride.
- Error texts: errors are compared by kind.
- In the feature spec model a transform is its registry entry rather than its name, so an unknown name arises only when a spec is read.
- Mapping files, headers, `msync`, process ids and the kernel: the protocols start from a created ring or beacon. The beacon's `pid`, which is never stored again, is not a field of the model.
- Memory models weaker than x86-TSO, which the crate states it assumes.
- The tracker's maps hold values that are put back after an update, rather than being updated through a reference; `exposed_symbols`, `open_orders` and the plain accessors only select.
- The loss limiter is its tripped bit; `PortfolioLimits::validate` and `gross_scale`, which act before any order, are not modelled.
- Statistics.StdSquared: takes it that the root squares back at the variance in question; over the reals one exists, but it is not constructed here.
- Formulas.ReturnIs: takes it of the logarithm only that a ratio's is the difference of its sides'.
- Reach.ReachIsNeeded: in an arithmetic whose root and logarithm tell no more than a NaN from a number.
- Tightness.LookbackIsTight: for chains of rolling sums; a spec can compose transforms whose values cancel, where less would do.
- Lock poisoning, allocation and timing, which change no value modelled here.
- `MarkCache.coverage`, `stale_symbols`, `age_ns` and `InFlight::is_empty`, which restate modelled queries.
- Feature bundles' manifests and files, the text of parity reports, and `Criterion::allows`.
- TrackerOrders.OrdersAdvance: only over venue events; an ack replaces whatever order its client id named, and retiring forgets orders.
- InFlight.AtMostOneAdmitted: needs that no release frees the slot from under another symbol, which the code does not enforce; `InFlight.TruthfulExactly` says that nothing less would do.
- Beacon.ReadsNeverGoBack: takes it that the publisher's own figures never fall, and for the count that there are fewer than 2^64 beats.
- Beacon.SnapshotIsAStateExactly: takes it that a truncated counter stays below 2^32, as do `Beacon.FieldMovesExactly`, `Beacon.FrozenExactly` and `Beacon.FrozenNoLonger`; past a wrap a counter can return to a value it had, and only `Beacon.DeltasAreExact` speaks of it.
- Guard.GuardedClient.CheckBatch: sizes are not negative, as the position the batch is projected on asks of its fills; the tracker and the mark cache are read once per symbol or order by the code and could move between two reads; here they stand still for the batch.
